/**
 Dataset metadata (backend/app/modules/datasets/metadata.py): language tags and capabilities are
 brought to one form, without repeats and in order.
 */
module Metadata {
  import opened Options
  import opened Ordering
  import opened Sequences
  import opened Text

  datatype Error = Blank | TooLong | ControlCharacter | Malformed | TooMany

  const MAX_VALUES := 32
  const MAX_LENGTH := 64

  // ---------- Characters ----------

  predicate IsUpper(c: char) { 'A' <= c <= 'Z' }

  predicate IsLower(c: char) { 'a' <= c <= 'z' }

  predicate IsDigit(c: char) { '0' <= c <= '9' }

  predicate IsLetter(c: char) { IsUpper(c) || IsLower(c) }

  predicate IsAlphanumeric(c: char) { IsLetter(c) || IsDigit(c) }

  function LowerChar(c: char): char {
    if IsUpper(c) then (c as int + 32) as char else c
  }

  function UpperChar(c: char): char {
    if IsLower(c) then (c as int - 32) as char else c
  }

  /** Lower case of ASCII text. */
  function Lower(s: string): (r: string)
    ensures |r| == |s|
  {
    seq(|s|, i requires 0 <= i < |s| => LowerChar(s[i]))
  }

  function Upper(s: string): (r: string)
    ensures |r| == |s|
  {
    seq(|s|, i requires 0 <= i < |s| => UpperChar(s[i]))
  }

  function Title(s: string): (r: string)
    ensures |r| == |s|
  {
    if s == [] then [] else [UpperChar(s[0])] + Lower(s[1..])
  }

  predicate Alphabetic(s: string) {
    forall i :: 0 <= i < |s| ==> IsLetter(s[i])
  }

  predicate Numeric(s: string) {
    forall i :: 0 <= i < |s| ==> IsDigit(s[i])
  }

  predicate Alphanumeric(s: string) {
    forall i :: 0 <= i < |s| ==> IsAlphanumeric(s[i])
  }

  // ---------- One value ----------

  predicate IsControl(c: char) {
    c as int < 32 || c as int == 127
  }

  predicate NoControl(s: string) {
    forall i :: 0 <= i < |s| ==> !IsControl(s[i])
  }

  /** `_bounded_text`. */
  function BoundedText(value: string): Result<string, Error> {
    var text := Strip(value);
    if text == [] then Err(Blank)
    else if |text| > MAX_LENGTH then Err(TooLong)
    else if !NoControl(text) then Err(ControlCharacter)
    else Ok(text)
  }

  // ---------- Language tags ----------

  /** `split("-")`. */
  function Split(s: string): (parts: seq<string>)
    ensures parts != []
  {
    if s == [] then [[]]
    else
      var rest := Split(s[1..]);
      if s[0] == '-' then [[]] + rest else [[s[0]] + rest[0]] + rest[1..]
  }

  /** `"-".join`. */
  function Join(parts: seq<string>): string
    requires parts != []
  {
    if |parts| == 1 then parts[0] else parts[0] + ("-" + Join(parts[1..]))
  }

  predicate TagPart(part: string) {
    1 <= |part| <= 8 && Alphanumeric(part)
  }

  predicate TagParts(parts: seq<string>) {
    && parts != [] && 2 <= |parts[0]| <= 8 && Alphabetic(parts[0])
    && (forall i :: 1 <= i < |parts| ==> TagPart(parts[i]))
  }

  predicate LanguageTag(s: string) {
    TagParts(Split(s))
  }

  function FormatPart(part: string): (r: string)
    ensures |r| == |part|
  {
    if |part| == 4 && Alphabetic(part) then Title(part)
    else if (|part| == 2 && Alphabetic(part)) || (|part| == 3 && Numeric(part)) then Upper(part)
    else Lower(part)
  }

  function FormatAt(parts: seq<string>, i: nat): (r: string)
    requires i < |parts|
  {
    if i == 0 then Lower(parts[0]) else FormatPart(parts[i])
  }

  function FormatParts(parts: seq<string>): (r: seq<string>)
    ensures |r| == |parts|
  {
    seq(|parts|, i requires 0 <= i < |parts| => FormatAt(parts, i))
  }

  function Canonical(tag: string): string {
    Join(FormatParts(Split(tag)))
  }

  function LanguageOf(value: string): Result<string, Error> {
    var text := BoundedText(value);
    if text.Err? then text
    else if !LanguageTag(text.value) then Err(Malformed)
    else Ok(Canonical(text.value))
  }

  /** The loop body of `normalize_languages`. */
  method NormalizeLanguage(value: string) returns (result: Result<string, Error>)
    ensures result == LanguageOf(value)
  {
    var text := BoundedText(value);
    if text.Err? {
      return text;
    }
    if !LanguageTag(text.value) {
      return Err(Malformed);
    }
    var parts := Split(text.value);
    var canonical := [Lower(parts[0])];
    for i := 1 to |parts|
      invariant canonical == FormatParts(parts)[..i]
    {
      var part := parts[i];
      ghost var before := canonical;
      if |part| == 4 && Alphabetic(part) {
        canonical := canonical + [Title(part)];
      } else if (|part| == 2 && Alphabetic(part)) || (|part| == 3 && Numeric(part)) {
        canonical := canonical + [Upper(part)];
      } else {
        canonical := canonical + [Lower(part)];
      }
      assert canonical == before + [FormatPart(part)] == FormatParts(parts)[..i + 1];
    }
    assert canonical == FormatParts(parts);
    result := Ok(Join(canonical));
  }

  // ---------- Capabilities ----------

  /** `lower()`: the Kelvin sign is the one other character whose lower case is plain ASCII. */
  function CapabilityLower(c: char): char {
    if c as int == 0x212A then 'k' else LowerChar(c)
  }

  function LowerCapability(s: string): string {
    seq(|s|, i requires 0 <= i < |s| => CapabilityLower(s[i]))
  }

  predicate Separates(c: char) {
    IsSpace(c) || c == '-'
  }

  function SkipSeparators(s: string): (r: string)
    ensures |r| <= |s|
  {
    if s != [] && Separates(s[0]) then SkipSeparators(s[1..]) else s
  }

  /** Each run of spaces and dashes becomes one underscore. */
  function Collapse(s: string): string
    decreases |s|
  {
    if s == [] then []
    else if Separates(s[0]) then ['_'] + Collapse(SkipSeparators(s[1..]))
    else [s[0]] + Collapse(s[1..])
  }

  predicate Capability(s: string) {
    && s != [] && (IsLower(s[0]) || IsDigit(s[0]))
    && (forall i :: 0 <= i < |s| ==> IsLower(s[i]) || IsDigit(s[i]) || s[i] == '_')
  }

  function CapabilityOf(value: string): Result<string, Error> {
    var text := BoundedText(value);
    if text.Err? then text
    else
      var item := Collapse(LowerCapability(text.value));
      if !Capability(item) then Err(Malformed) else Ok(item)
  }

  // ---------- Collections ----------

  /** The sort key `(item.lower(), item)`. */
  function CompareItems(a: string, b: string): int {
    Then(CompareText(Lower(a), Lower(b)), CompareText(a, b))
  }

  lemma ItemsAreOrdered()
    ensures IsOrder(CompareItems)
  {
    forall a, b
      ensures Opposed(CompareItems, a, b)
    {
      CompareTextReverses(Lower(a), Lower(b));
      CompareTextReverses(a, b);
    }
    forall a, b, c
      ensures Chained(CompareItems, a, b, c)
    {
      TextFits(Lower(a), Lower(b), Lower(c));
      TextFits(a, b, c);
    }
  }

  type Item = string -> Result<string, Error>

  ghost predicate AllAccepted(item: Item, values: seq<string>) {
    forall i :: 0 <= i < |values| ==> item(values[i]).Ok?
  }

  function Items(item: Item, values: seq<string>): set<string> {
    if values == [] then {}
    else
      Items(item, values[..|values| - 1])
        + if item(values[|values| - 1]).Ok? then {item(values[|values| - 1]).value} else {}
  }

  /** What normalising `values` returns. */
  ghost predicate Describes(item: Item, values: seq<string>, result: Result<seq<string>, Error>) {
    && (result.Ok? <==> AllAccepted(item, values) && |Items(item, values)| <= MAX_VALUES)
    && (result.Ok? ==> Lists(result.value, Items(item, values)))
    && (result.Err? ==>
          if AllAccepted(item, values) then result.error == TooMany
          else exists i :: 0 <= i < |values| && AllAccepted(item, values[..i]) && item(values[i]) == Err(result.error))
  }

  /** The elements of the set in strictly increasing order. */
  ghost predicate Lists(list: seq<string>, items: set<string>) {
    StrictlySorted(CompareItems, list) && forall x :: x in list <==> x in items
  }

  ghost predicate OnceEach(list: seq<string>, items: set<string>) {
    forall x :: multiset(list)[x] == if x in items then 1 else 0
  }

  lemma SortedOnce(list: seq<string>, items: set<string>)
    requires OnceEach(list, items)
    ensures Lists(Sort(CompareItems, list), items)
  {
    ItemsAreOrdered();
    SortSorts(CompareItems, list);
    var sorted := Sort(CompareItems, list);
    forall i, j | 0 <= i < j < |sorted|
      ensures CompareItems(sorted[i], sorted[j]) < 0
    {
      if sorted[i] == sorted[j] {
        TwiceCounts(sorted, i, j);
      }
      CompareTextReverses(sorted[i], sorted[j]);
      CompareTextReverses(Lower(sorted[i]), Lower(sorted[j]));
    }
    assert forall x :: x in sorted <==> x in multiset(sorted);
  }

  /** `_bounded_collection`, over a set in whatever order it yields its elements. */
  method BoundedCollection(items: set<string>) returns (result: Result<seq<string>, Error>)
    ensures result.Ok? <==> |items| <= MAX_VALUES
    ensures result.Ok? ==> Lists(result.value, items)
    ensures result.Err? ==> result.error == TooMany
  {
    if |items| > MAX_VALUES {
      return Err(TooMany);
    }
    var list: seq<string> := [];
    var remaining := items;
    while remaining != {}
      invariant remaining <= items
      invariant OnceEach(list, items - remaining)
    {
      var x :| x in remaining;
      list := list + [x];
      remaining := remaining - {x};
    }
    assert items - {} == items;
    SortedOnce(list, items);
    result := Ok(Sort(CompareItems, list));
  }

  lemma OneMoreAccepted(item: Item, values: seq<string>, i: nat)
    requires i < |values| && AllAccepted(item, values[..i]) && item(values[i]).Ok?
    ensures AllAccepted(item, values[..i + 1])
    ensures Items(item, values[..i + 1]) == Items(item, values[..i]) + {item(values[i]).value}
  {
    assert values[..i + 1][..i] == values[..i];
  }

  /** `normalize_languages`. */
  method NormalizeLanguages(values: seq<string>) returns (result: Result<seq<string>, Error>)
    ensures Describes(LanguageOf, values, result)
  {
    var normalized: set<string> := {};
    for i := 0 to |values|
      invariant AllAccepted(LanguageOf, values[..i]) && normalized == Items(LanguageOf, values[..i])
    {
      var item := NormalizeLanguage(values[i]);
      if item.Err? {
        return Err(item.error);
      }
      OneMoreAccepted(LanguageOf, values, i);
      normalized := normalized + {item.value};
    }
    assert values[..|values|] == values;
    result := BoundedCollection(normalized);
  }

  /** `normalize_capabilities`. */
  method NormalizeCapabilities(values: seq<string>) returns (result: Result<seq<string>, Error>)
    ensures Describes(CapabilityOf, values, result)
  {
    var normalized: set<string> := {};
    for i := 0 to |values|
      invariant AllAccepted(CapabilityOf, values[..i]) && normalized == Items(CapabilityOf, values[..i])
    {
      var item := CapabilityOf(values[i]);
      if item.Err? {
        return Err(item.error);
      }
      OneMoreAccepted(CapabilityOf, values, i);
      normalized := normalized + {item.value};
    }
    assert values[..|values|] == values;
    result := BoundedCollection(normalized);
  }

  // ---------- Order and repetition ----------

  lemma {:induction false} ItemsOf(item: Item, values: seq<string>, x: string)
    ensures x in Items(item, values) <==> exists v :: v in values && item(v) == Ok(x)
  {
    if values != [] {
      var front, last := values[..|values| - 1], values[|values| - 1];
      ItemsOf(item, front, x);
      assert values == front + [last];
    }
  }

  lemma SameItems(item: Item, values: seq<string>, other: seq<string>)
    requires forall v :: v in values <==> v in other
    ensures AllAccepted(item, values) <==> AllAccepted(item, other)
    ensures Items(item, values) == Items(item, other)
  {
    forall x
      ensures x in Items(item, values) <==> x in Items(item, other)
    {
      ItemsOf(item, values, x);
      ItemsOf(item, other, x);
    }
    assert forall i :: 0 <= i < |values| ==> values[i] in other;
    assert forall i :: 0 <= i < |other| ==> other[i] in values;
  }

  lemma SameList(list: seq<string>, other: seq<string>, items: set<string>)
    requires Lists(list, items) && Lists(other, items)
    ensures list == other
  {
    ItemsAreOrdered();
    StrictlySortedIsUnique(CompareItems, list, other);
  }

  /** Order and repetition of the input do not matter: accepted alike, with the same list. */
  lemma OrderAndRepeatsAreIrrelevant(item: Item, values: seq<string>, other: seq<string>,
                                     result: Result<seq<string>, Error>, result': Result<seq<string>, Error>)
    requires forall v :: v in values <==> v in other
    requires Describes(item, values, result) && Describes(item, other, result')
    ensures result.Ok? <==> result'.Ok?
    ensures result.Ok? ==> result == result'
  {
    SameItems(item, values, other);
    if result.Ok? {
      SameList(result.value, result'.value, Items(item, values));
    }
  }

  /** Normal forms are accepted as they are. */
  ghost predicate Settled(item: Item) {
    forall v :: item(v).Ok? ==> item(item(v).value) == item(v)
  }

  /** Normalising a normalised list changes nothing. */
  lemma NormalisingIsIdempotent(item: Item, values: seq<string>, list: seq<string>, again: Result<seq<string>, Error>)
    requires Settled(item) && Describes(item, values, Ok(list)) && Describes(item, list, again)
    ensures again == Ok(list)
  {
    forall x | x in list
      ensures item(x) == Ok(x)
    {
      ItemsOf(item, values, x);
      var v :| v in values && item(v) == Ok(x);
    }
    forall x
      ensures x in Items(item, list) <==> x in Items(item, values)
    {
      ItemsOf(item, list, x);
    }
    assert Items(item, list) == Items(item, values);
    SameList(list, again.value, Items(item, values));
  }

  // ---------- Splitting and joining ----------

  lemma {:induction false} JoinSplit(s: string)
    ensures Join(Split(s)) == s
    ensures forall i :: 0 <= i < |Split(s)| ==> '-' !in Split(s)[i]
  {
    if s != [] {
      var rest := Split(s[1..]);
      JoinSplit(s[1..]);
      assert s == [s[0]] + s[1..];
      if s[0] == '-' {
        assert ([[]] + rest)[1..] == rest;
      } else {
        assert ([[s[0]] + rest[0]] + rest[1..])[1..] == rest[1..];
      }
    }
  }

  lemma {:induction false} SplitFirst(part: string, more: string)
    requires '-' !in part
    ensures Split(part + ("-" + more)) == [part] + Split(more)
    ensures Split(part) == [part]
    decreases |part|
  {
    var s := part + ("-" + more);
    if part == [] {
      assert s[1..] == more;
    } else {
      assert s[1..] == part[1..] + ("-" + more) && part == [part[0]] + part[1..];
      SplitFirst(part[1..], more);
    }
  }

  lemma {:induction false} SplitJoin(parts: seq<string>)
    requires parts != [] && forall i :: 0 <= i < |parts| ==> '-' !in parts[i]
    ensures Split(Join(parts)) == parts
  {
    if |parts| == 1 {
      SplitFirst(parts[0], []);
    } else {
      SplitJoin(parts[1..]);
      SplitFirst(parts[0], Join(parts[1..]));
      assert parts == [parts[0]] + parts[1..];
    }
  }

  function LowerAll(parts: seq<string>): seq<string> {
    seq(|parts|, i requires 0 <= i < |parts| => Lower(parts[i]))
  }

  lemma {:induction false} LowerJoin(parts: seq<string>)
    requires parts != []
    ensures Lower(Join(parts)) == Join(LowerAll(parts))
  {
    if |parts| > 1 {
      LowerJoin(parts[1..]);
      assert LowerAll(parts)[1..] == LowerAll(parts[1..]);
      assert Lower("-") == "-";
    }
  }

  // ---------- One form per tag ----------

  lemma {:induction false} TitleIgnoresCase(part: string)
    ensures Title(Lower(part)) == Title(part) && Lower(Title(part)) == Lower(part)
  {
    if part != [] {
      assert Lower(part)[1..] == Lower(part[1..]);
    }
  }

  /** The form of a part depends on its letters only up to case, and keeps them up to case. */
  lemma FormatIgnoresCase(part: string)
    ensures FormatPart(Lower(part)) == FormatPart(part)
    ensures Lower(FormatPart(part)) == Lower(part)
  {
    var lower := Lower(part);
    assert forall i :: 0 <= i < |part| ==> (IsLetter(lower[i]) <==> IsLetter(part[i]));
    assert forall i :: 0 <= i < |part| ==> (IsDigit(lower[i]) <==> IsDigit(part[i]));
    TitleIgnoresCase(part);
  }

  lemma PartsIgnoreCase(parts: seq<string>)
    requires parts != []
    ensures FormatParts(LowerAll(parts)) == FormatParts(parts)
    ensures LowerAll(FormatParts(parts)) == LowerAll(parts)
  {
    forall i | 0 <= i < |parts|
      ensures FormatAt(LowerAll(parts), i) == FormatAt(parts, i) && Lower(FormatAt(parts, i)) == Lower(parts[i])
    {
      FormatIgnoresCase(parts[i]);
    }
  }

  lemma CanonicalIgnoresCase(tag: string)
    ensures Canonical(Lower(tag)) == Canonical(tag)
    ensures Lower(Canonical(tag)) == Lower(tag)
  {
    JoinSplit(tag);
    LowerJoin(Split(tag));
    forall i | 0 <= i < |Split(tag)|
      ensures '-' !in LowerAll(Split(tag))[i]
    {
    }
    SplitJoin(LowerAll(Split(tag)));
    PartsIgnoreCase(Split(tag));
    LowerJoin(FormatParts(Split(tag)));
    JoinSplit(tag);
    LowerJoin(Split(tag));
  }

  /** Two accepted tags get one form exactly when they are equal ignoring case. */
  lemma SameFormIffSameIgnoringCase(value: string, other: string)
    requires LanguageOf(value).Ok? && LanguageOf(other).Ok?
    ensures LanguageOf(value) == LanguageOf(other) <==> Lower(Strip(value)) == Lower(Strip(other))
  {
    CanonicalIgnoresCase(Strip(value));
    CanonicalIgnoresCase(Strip(other));
  }

  // ---------- Canonical tags are accepted unchanged ----------

  predicate TagCharacter(c: char) {
    IsAlphanumeric(c) || c == '-'
  }

  lemma {:induction false} TagCharacters(s: string)
    requires forall i :: 0 <= i < |Split(s)| ==> Alphanumeric(Split(s)[i])
    ensures forall i :: 0 <= i < |s| ==> TagCharacter(s[i])
  {
    if s != [] {
      var rest, parts := Split(s[1..]), Split(s);
      forall i | 0 <= i < |rest|
        ensures Alphanumeric(rest[i])
      {
        if s[0] == '-' {
          assert rest[i] == parts[i + 1];
        } else if i == 0 {
          assert parts[0] == [s[0]] + rest[0];
          assert rest[0] == parts[0][1..];
        } else {
          assert rest[i] == parts[i];
        }
      }
      TagCharacters(s[1..]);
      assert s[0] != '-' ==> parts[0][0] == s[0];
    }
  }

  lemma AlphanumericIgnoresCase(part: string, other: string)
    requires Lower(part) == Lower(other) && Alphanumeric(part)
    ensures Alphanumeric(other) && '-' !in other && (Alphabetic(part) ==> Alphabetic(other))
  {
    assert |part| == |Lower(part)| == |other|;
    forall i | 0 <= i < |part|
      ensures IsAlphanumeric(other[i]) && (IsLetter(part[i]) ==> IsLetter(other[i]))
    {
      assert Lower(part)[i] == Lower(other)[i];
    }
  }

  lemma TagPartsKept(parts: seq<string>, other: seq<string>)
    requires TagParts(parts) && LowerAll(parts) == LowerAll(other)
    ensures |other| == |parts| && forall i :: 0 <= i < |other| ==>
              |other[i]| == |parts[i]| && Alphanumeric(other[i]) && '-' !in other[i] &&
              (Alphabetic(parts[i]) ==> Alphabetic(other[i]))
  {
    assert |LowerAll(parts)| == |LowerAll(other)|;
    forall i | 0 <= i < |other|
      ensures Lower(parts[i]) == Lower(other[i])
    {
      assert LowerAll(parts)[i] == LowerAll(other)[i];
    }
    forall i | 0 <= i < |other|
      ensures |other[i]| == |parts[i]| && Alphanumeric(other[i]) && '-' !in other[i]
      ensures Alphabetic(parts[i]) ==> Alphabetic(other[i])
    {
      AlphanumericIgnoresCase(parts[i], other[i]);
      assert |other[i]| == |Lower(other[i])| == |parts[i]|;
    }
  }

  lemma CanonicalTagIsSettled(value: string)
    requires LanguageOf(value).Ok?
    ensures LanguageOf(LanguageOf(value).value) == LanguageOf(value)
  {
    var tag := Strip(value);
    var parts, canonical := Split(tag), Canonical(tag);
    var formatted := FormatParts(parts);
    PartsIgnoreCase(parts);
    TagPartsKept(parts, formatted);
    SplitJoin(formatted);
    PartsIgnoreCase(formatted);
    CanonicalIgnoresCase(tag);
    TagCharacters(canonical);
    assert |canonical| == |tag|;
    assert FormatParts(formatted) == FormatParts(LowerAll(formatted)) == formatted;
  }

  lemma LanguagesSettle()
    ensures Settled(LanguageOf)
  {
    forall v | LanguageOf(v).Ok?
      ensures LanguageOf(LanguageOf(v).value) == LanguageOf(v)
    {
      CanonicalTagIsSettled(v);
    }
  }

  // ---------- Capabilities settle too ----------

  lemma {:induction false} CollapseShrinks(s: string)
    ensures |Collapse(s)| <= |s|
    decreases |s|
  {
    if s != [] {
      if Separates(s[0]) {
        CollapseShrinks(SkipSeparators(s[1..]));
      } else {
        CollapseShrinks(s[1..]);
      }
    }
  }

  lemma {:induction false} CollapseKeeps(s: string)
    requires forall i :: 0 <= i < |s| ==> !Separates(s[i])
    ensures Collapse(s) == s
  {
    if s != [] {
      CollapseKeeps(s[1..]);
      assert s == [s[0]] + s[1..];
    }
  }

  lemma CapabilitiesSettle()
    ensures Settled(CapabilityOf)
  {
    forall v | CapabilityOf(v).Ok?
      ensures CapabilityOf(CapabilityOf(v).value) == CapabilityOf(v)
    {
      var item := CapabilityOf(v).value;
      CollapseShrinks(LowerCapability(Strip(v)));
      assert LowerCapability(item) == item;
      CollapseKeeps(item);
    }
  }

  // ---------- What is accepted ----------

  /** A language of two to eight letters, then subtags of up to eight letters or digits. */
  ghost predicate Subtags(parts: seq<string>) {
    && parts != [] && 2 <= |parts[0]| <= 8
    && (forall k :: 0 <= k < |parts[0]| ==> 'a' <= parts[0][k] <= 'z' || 'A' <= parts[0][k] <= 'Z')
    && forall i :: 1 <= i < |parts| ==> Subtag(parts[i])
  }

  ghost predicate Subtag(part: string) {
    && 1 <= |part| <= 8
    && forall k :: 0 <= k < |part| ==> 'a' <= part[k] <= 'z' || 'A' <= part[k] <= 'Z' || '0' <= part[k] <= '9'
  }

  lemma SubtagsAreParts(parts: seq<string>)
    ensures Subtags(parts) <==> TagParts(parts)
  {
    if Subtags(parts) {
      assert Alphabetic(parts[0]);
      assert forall i :: 1 <= i < |parts| ==> Subtag(parts[i]) ==> TagPart(parts[i]);
    }
    if TagParts(parts) {
      assert forall i :: 1 <= i < |parts| ==> TagPart(parts[i]) ==> Subtag(parts[i]);
    }
  }

  lemma SpelledTag(parts: seq<string>)
    requires Subtags(parts)
    ensures Split(Join(parts)) == parts && LanguageTag(Join(parts)) && NoControl(Join(parts))
  {
    SubtagsAreParts(parts);
    forall i | 0 <= i < |parts|
      ensures Alphanumeric(parts[i]) && '-' !in parts[i]
    {
      assert i > 0 ==> TagPart(parts[i]);
    }
    SplitJoin(parts);
    TagCharacters(Join(parts));
  }

  /** A language is accepted exactly when, stripped, it is dashed subtags of at most 64 characters. */
  lemma LanguageAcceptedExactly(value: string)
    ensures LanguageOf(value).Ok? <==> |Strip(value)| <= 64 && exists parts :: Subtags(parts) && Join(parts) == Strip(value)
  {
    var text := Strip(value);
    if LanguageOf(value).Ok? {
      JoinSplit(text);
      SubtagsAreParts(Split(text));
    }
    if parts :| Subtags(parts) && Join(parts) == text {
      SpelledTag(parts);
      assert Split([]) == [[]];
    }
  }

  /** A run of white space and dashes between words becomes one underscore. */
  lemma {:induction false} RunBecomesUnderscore(word: string, gap: string, rest: string)
    requires forall i :: 0 <= i < |word| ==> !Separates(word[i])
    requires gap != [] && forall i :: 0 <= i < |gap| ==> IsSpace(gap[i]) || gap[i] == '-'
    requires rest == [] || !Separates(rest[0])
    ensures Collapse(word + (gap + rest)) == word + (['_'] + Collapse(rest))
    decreases |word|
  {
    if word == [] {
      assert word + (gap + rest) == gap + rest && word + (['_'] + Collapse(rest)) == ['_'] + Collapse(rest);
      TailOfBoth(gap, rest);
      GapIsSkipped(gap[1..], rest);
    } else {
      TailOfBoth(word, gap + rest);
      RunBecomesUnderscore(word[1..], gap, rest);
      assert word == [word[0]] + word[1..];
      Regroup([word[0]], word[1..], ['_'] + Collapse(rest));
    }
  }

  lemma {:induction false} GapIsSkipped(gap: string, rest: string)
    requires forall i :: 0 <= i < |gap| ==> IsSpace(gap[i]) || gap[i] == '-'
    requires rest == [] || !Separates(rest[0])
    ensures SkipSeparators(gap + rest) == rest
  {
    if gap == [] {
      assert gap + rest == rest;
    } else {
      assert (gap + rest)[1..] == gap[1..] + rest;
      GapIsSkipped(gap[1..], rest);
    }
  }

  predicate CapabilityCharacter(c: char) {
    IsLower(c) || IsDigit(c) || c == '_'
  }

  ghost predicate OnlyCapability(s: string) {
    forall i :: 0 <= i < |s| ==> CapabilityCharacter(s[i])
  }

  ghost predicate CapabilityOrSeparator(s: string) {
    forall i :: 0 <= i < |s| ==> CapabilityCharacter(s[i]) || Separates(s[i])
  }

  lemma FirstOf(s: string)
    requires s != []
    ensures OnlyCapability(s) <==> CapabilityCharacter(s[0]) && OnlyCapability(s[1..])
    ensures CapabilityOrSeparator(s) <==>
            (CapabilityCharacter(s[0]) || Separates(s[0])) && CapabilityOrSeparator(s[1..])
  {
    assert s == [s[0]] + s[1..];
  }

  lemma {:induction false} SkippedAreSeparators(s: string)
    ensures CapabilityOrSeparator(SkipSeparators(s)) <==> CapabilityOrSeparator(s)
  {
    if s != [] && Separates(s[0]) {
      SkippedAreSeparators(s[1..]);
      FirstOf(s);
    }
  }

  lemma {:induction false} CollapsedCharacters(s: string)
    ensures OnlyCapability(Collapse(s)) <==> CapabilityOrSeparator(s)
    ensures s != [] ==> Collapse(s) != [] && Collapse(s)[0] == if Separates(s[0]) then '_' else s[0]
    decreases |s|
  {
    if s != [] {
      FirstOf(s);
      FirstOf(Collapse(s));
      if Separates(s[0]) {
        CollapsedCharacters(SkipSeparators(s[1..]));
        SkippedAreSeparators(s[1..]);
      } else {
        CollapsedCharacters(s[1..]);
      }
    }
  }

  /** A letter or digit, in either case; the Kelvin sign counts as the letter it is lowered to. */
  ghost predicate CapabilityLetter(c: char) {
    'a' <= c <= 'z' || 'A' <= c <= 'Z' || '0' <= c <= '9' || c as int == 0x212A
  }

  lemma LoweredCharacter(c: char)
    ensures CapabilityCharacter(CapabilityLower(c)) <==> CapabilityLetter(c) || c == '_'
    ensures Separates(CapabilityLower(c)) <==> Separates(c)
    ensures Separates(c) <==> IsSpace(c) || c == '-'
  {
  }

  /**
   A capability is accepted exactly when, stripped, it starts with a letter or digit and has only
   those, underscores, dashes and white space that is no control character, at most 64 in all.
   */
  lemma CapabilityAcceptedExactly(value: string)
    ensures var text := Strip(value);
      CapabilityOf(value).Ok? <==>
        && 1 <= |text| <= 64 && CapabilityLetter(text[0])
        && forall i :: 0 <= i < |text| ==>
             || CapabilityLetter(text[i]) || text[i] in {'_', '-'}
             || (IsSpace(text[i]) && text[i] as int >= 32)
  {
    var text := Strip(value);
    var lower := LowerCapability(text);
    CollapsedCharacters(lower);
    forall i | 0 <= i < |text|
      ensures CapabilityCharacter(lower[i]) || Separates(lower[i])
         <==> CapabilityLetter(text[i]) || text[i] in {'_', '-'} || IsSpace(text[i])
    {
      LoweredCharacter(text[i]);
    }
    if text != [] {
      LoweredCharacter(text[0]);
      assert Capability(Collapse(lower)) <==> OnlyCapability(Collapse(lower)) && CapabilityLetter(text[0]);
    }
  }

  lemma {:induction false} StripLeftIgnoresCase(s: string)
    ensures StripLeft(Lower(s)) == Lower(StripLeft(s))
  {
    if s != [] {
      assert Lower(s)[1..] == Lower(s[1..]);
      StripLeftIgnoresCase(s[1..]);
    }
  }

  lemma {:induction false} StripRightIgnoresCase(s: string)
    ensures StripRight(Lower(s)) == Lower(StripRight(s))
  {
    if s != [] {
      assert Lower(s)[..|s| - 1] == Lower(s[..|s| - 1]);
      StripRightIgnoresCase(s[..|s| - 1]);
    }
  }

  /** The letter case of a capability does not matter, to its form or to its rejection. */
  lemma CapabilityIgnoresCase(value: string)
    ensures CapabilityOf(Lower(value)) == CapabilityOf(value)
  {
    StripLeftIgnoresCase(value);
    StripRightIgnoresCase(StripLeft(value));
    var text := Strip(value);
    assert Strip(Lower(value)) == Lower(text);
    assert LowerCapability(Lower(text)) == LowerCapability(text);
    assert forall i :: 0 <= i < |text| ==> (IsControl(Lower(text)[i]) <==> IsControl(text[i]));
  }

  /** The list is in order ignoring case, and by code point where only the case differs. */
  lemma ListedIgnoringCase(list: seq<string>, items: set<string>, i: nat, j: nat)
    requires Lists(list, items) && i < j < |list|
    ensures || CompareText(Lower(list[i]), Lower(list[j])) < 0
            || (Lower(list[i]) == Lower(list[j]) && CompareText(list[i], list[j]) < 0)
  {
    CompareTextReverses(Lower(list[i]), Lower(list[j]));
  }

  // ---------- Section 2.1.1 of RFC 5646 ----------

  /** Some subtag before `i` is a singleton. */
  ghost predicate AfterSingleton(parts: seq<string>, i: nat)
    requires i <= |parts|
  {
    exists j :: 0 <= j < i && |parts[j]| == 1
  }

  /**
   Lower case throughout, except that outside the start and not after a singleton two-letter
   subtags are upper case and four-letter ones title case.
   */
  ghost function ConventionalAt(parts: seq<string>, i: nat): string
    requires i < |parts|
  {
    if i == 0 || AfterSingleton(parts, i) then Lower(parts[i])
    else if |parts[i]| == 2 && Alphabetic(parts[i]) then Upper(parts[i])
    else if |parts[i]| == 4 && Alphabetic(parts[i]) then Upper(parts[i][..1]) + Lower(parts[i][1..])
    else Lower(parts[i])
  }

  ghost predicate Conventional(parts: seq<string>, formatted: seq<string>) {
    |formatted| == |parts| && forall i :: 0 <= i < |parts| ==> formatted[i] == ConventionalAt(parts, i)
  }

  /** A two- or four-letter subtag after a singleton. */
  ghost predicate Exceptional(parts: seq<string>, i: nat)
    requires i < |parts|
  {
    0 < i && AfterSingleton(parts, i) && (|parts[i]| == 2 || |parts[i]| == 4) && Alphabetic(parts[i])
  }

  lemma CasesDiffer(part: string)
    requires Alphabetic(part) && part != []
    ensures Upper(part) != Lower(part) && Title(part) != Lower(part)
  {
    assert Upper(part)[0] != Lower(part)[0];
    assert Title(part)[0] != Lower(part)[0];
  }

  lemma ConventionalPart(parts: seq<string>, i: nat)
    requires i < |parts|
    ensures FormatAt(parts, i) == ConventionalAt(parts, i) <==> !Exceptional(parts, i)
  {
    var part := parts[i];
    assert |part| == 4 ==> Title(part) == Upper(part[..1]) + Lower(part[1..]);
    if (|part| == 2 || |part| == 4) && Alphabetic(part) {
      CasesDiffer(part);
    }
  }

  /**
   The form is the recommended one exactly when no two- or four-letter subtag follows a
   singleton; in particular for every tag without singletons.
   */
  lemma ConventionalUnlessExceptional(tag: string)
    requires LanguageTag(tag)
    ensures Conventional(Split(tag), FormatParts(Split(tag)))
       <==> forall i :: 0 <= i < |Split(tag)| ==> !Exceptional(Split(tag), i)
  {
    forall i | 0 <= i < |Split(tag)|
      ensures FormatParts(Split(tag))[i] == ConventionalAt(Split(tag), i) <==> !Exceptional(Split(tag), i)
    {
      ConventionalPart(Split(tag), i);
    }
  }

  /** The exception is real for every language: behind a singleton a region-like subtag is raised. */
  lemma SubtagAfterSingletonIsRaised(language: string, singleton: char, subtag: string)
    requires 2 <= |language| <= 8 && Alphabetic(language) && IsAlphanumeric(singleton)
    requires |subtag| == 2 && Alphabetic(subtag)
    ensures LanguageOf(Join([language, [singleton], subtag]))
         == Ok(Join([Lower(language), Lower([singleton]), Upper(subtag)]))
    ensures !Conventional([language, [singleton], subtag], [Lower(language), Lower([singleton]), Upper(subtag)])
  {
    var parts := [language, [singleton], subtag];
    forall i | 0 <= i < |parts|
      ensures '-' !in parts[i] && Alphanumeric(parts[i])
    {
      AlphanumericIgnoresCase(parts[i], parts[i]);
    }
    SplitJoin(parts);
    TagCharacters(Join(parts));
    assert parts[1..] == [[singleton], subtag] && parts[1..][1..] == [subtag];
    assert Join(parts[1..]) == [singleton] + ("-" + subtag);
    assert FormatParts(parts) == [Lower(language), Lower([singleton]), Upper(subtag)];
    assert |parts[1]| == 1 && AfterSingleton(parts, 2);
    assert Exceptional(parts, 2);
    ConventionalUnlessExceptional(Join(parts));
  }
}

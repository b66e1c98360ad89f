/**
 Prompt templates (backend/app/modules/benchmarks/prompts.py): the placeholder pattern, template
 validation, and single-pass substitution.
 */
module Templates {
  import opened Options
  import opened Sequences
  import opened Text

  // ---------- The placeholder pattern ----------

  predicate StartsName(c: char) {
    'a' <= c <= 'z' || 'A' <= c <= 'Z' || c == '_'
  }

  predicate ContinuesName(c: char) {
    StartsName(c) || '0' <= c <= '9'
  }

  predicate IsName(name: string) {
    name != [] && StartsName(name[0]) && forall i :: 0 <= i < |name| ==> ContinuesName(name[i])
  }

  /** What is still expected after the first brace. */
  datatype Phase = Open | Before | InName | After | Closing

  datatype Placeholder = Placeholder(name: string, rest: string)

  /**
   Matches the remainder of the pattern at the start of `s`.  Spaces, name characters and braces
   are distinct, so greedy repetition never has to back up.
   */
  function Remainder(phase: Phase, s: string, name: string): Option<Placeholder>
    decreases |s|
  {
    if s == [] then None
    else
      var c, rest := s[0], s[1..];
      match phase
      case Open => if c == '{' then Remainder(Before, rest, name) else None
      case Before =>
        if IsSpace(c) then Remainder(Before, rest, name)
        else if StartsName(c) then Remainder(InName, rest, name + [c])
        else None
      case InName =>
        if ContinuesName(c) then Remainder(InName, rest, name + [c])
        else if IsSpace(c) then Remainder(After, rest, name)
        else if c == '}' then Remainder(Closing, rest, name)
        else None
      case After =>
        if IsSpace(c) then Remainder(After, rest, name)
        else if c == '}' then Remainder(Closing, rest, name)
        else None
      case Closing => if c == '}' then Some(Placeholder(name, rest)) else None
  }

  /** A placeholder at the very start of `s`. */
  function Match(s: string): Option<Placeholder> {
    if s != [] && s[0] == '{' then Remainder(Open, s[1..], []) else None
  }

  lemma {:induction false} RemainderShrinks(phase: Phase, s: string, name: string)
    ensures var p := Remainder(phase, s, name); p.Some? ==> |p.value.rest| < |s|
    decreases |s|
  {
    if s != [] {
      var c, rest := s[0], s[1..];
      match phase
      case Open => RemainderShrinks(Before, rest, name);
      case Before =>
        RemainderShrinks(Before, rest, name);
        RemainderShrinks(InName, rest, name + [c]);
      case InName =>
        RemainderShrinks(InName, rest, name + [c]);
        RemainderShrinks(After, rest, name);
        RemainderShrinks(Closing, rest, name);
      case After =>
        RemainderShrinks(After, rest, name);
        RemainderShrinks(Closing, rest, name);
      case Closing =>
    }
  }

  /** The pattern read declaratively: two braces, spaces, a name, spaces, two braces. */
  ghost predicate Spells(s: string, before: string, name: string, after: string, rest: string) {
    AllSpace(before) && IsName(name) && AllSpace(after) && s == "{{" + (before + (name + (after + ("}}" + rest))))
  }

  /** What is left to read in each phase, `prefix` being the part of the name already read. */
  ghost predicate SpellsFrom(phase: Phase, s: string, prefix: string, before: string, tail: string, after: string,
                             rest: string) {
    match phase
    case Open => false
    case Before => prefix == [] && AllSpace(before) && IsName(tail) && AllSpace(after)
                   && s == before + (tail + (after + ("}}" + rest)))
    case InName => IsName(prefix) && IsName(prefix + tail) && AllSpace(after) && s == tail + (after + ("}}" + rest))
    case After => IsName(prefix) && tail == [] && AllSpace(after) && s == after + ("}}" + rest)
    case Closing => IsName(prefix) && tail == [] && s == "}" + rest
  }

  lemma NameGrows(prefix: string, tail: string)
    requires IsName(prefix + tail) && IsName(prefix) && tail != []
    ensures ContinuesName(tail[0]) && IsName(prefix + [tail[0]])
    ensures (prefix + [tail[0]]) + tail[1..] == prefix + tail
  {
    assert (prefix + tail)[|prefix|] == tail[0];
  }

  /** Whatever is spelled is matched, with that name and that rest. */
  lemma {:induction false} SpelledIsMatched(phase: Phase, s: string, prefix: string, before: string, tail: string,
                                            after: string, rest: string)
    requires SpellsFrom(phase, s, prefix, before, tail, after, rest)
    ensures Remainder(phase, s, prefix) == Some(Placeholder(prefix + tail, rest))
    decreases |s|
  {
    var end := "}}" + rest;
    assert end[0] == '}' && end[1..] == "}" + rest;
    match phase
    case Before =>
      if before != [] {
        TailOfBoth(before, tail + (after + end));
        SpelledIsMatched(Before, s[1..], prefix, before[1..], tail, after, rest);
      } else {
        TailOfBoth(tail, after + end);
        assert s == tail + (after + end);
        NameStart(tail);
        assert prefix + [tail[0]] == [tail[0]];
        SpelledIsMatched(InName, s[1..], [tail[0]], [], tail[1..], after, rest);
        assert prefix + tail == tail;
      }
    case InName =>
      if tail != [] {
        TailOfBoth(tail, after + end);
        NameGrows(prefix, tail);
        SpelledIsMatched(InName, s[1..], prefix + [tail[0]], [], tail[1..], after, rest);
      } else {
        assert s == after + end && prefix + tail == prefix;
        if after != [] {
          TailOfBoth(after, end);
          SpelledIsMatched(After, s[1..], prefix, [], [], after[1..], rest);
        } else {
          assert s == end;
          SpelledIsMatched(Closing, s[1..], prefix, [], [], [], rest);
        }
      }
    case After =>
      if after != [] {
        TailOfBoth(after, end);
        SpelledIsMatched(After, s[1..], prefix, [], [], after[1..], rest);
      } else {
        assert s == end;
        SpelledIsMatched(Closing, s[1..], prefix, [], [], [], rest);
      }
    case Closing =>
      assert s[1..] == rest && prefix + tail == prefix;
  }

  lemma NameStart(name: string)
    requires IsName(name)
    ensures IsName([name[0]]) && [name[0]] + name[1..] == name && !IsSpace(name[0])
  {
  }

  /** Whatever is matched is spelled. */
  lemma {:induction false} MatchedIsSpelled(phase: Phase, s: string, prefix: string)
    returns (before: string, tail: string, after: string)
    requires Remainder(phase, s, prefix).Some? && !phase.Open?
    requires if phase.Before? then prefix == [] else IsName(prefix)
    ensures var p := Remainder(phase, s, prefix).value;
      prefix + tail == p.name && SpellsFrom(phase, s, prefix, before, tail, after, p.rest)
    decreases |s|
  {
    var c, more, end := s[0], s[1..], "}}" + Remainder(phase, s, prefix).value.rest;
    before, tail, after := [], [], [];
    assert s == [c] + more;
    match phase
    case Before =>
      if IsSpace(c) {
        before, tail, after := MatchedIsSpelled(Before, more, prefix);
        before := [c] + before;
        assert s == before + (tail + (after + end));
      } else {
        assert prefix + [c] == [c];
        before, tail, after := MatchedIsSpelled(InName, more, [c]);
        before, tail := [], [c] + tail;
        assert s == before + (tail + (after + end));
        assert prefix + tail == tail;
      }
    case InName =>
      if ContinuesName(c) {
        before, tail, after := MatchedIsSpelled(InName, more, prefix + [c]);
        tail := [c] + tail;
        assert s == tail + (after + end);
      } else if IsSpace(c) {
        before, tail, after := MatchedIsSpelled(After, more, prefix);
        after := [c] + after;
        assert s == tail + (after + end) && prefix + tail == prefix;
      } else {
        before, tail, after := MatchedIsSpelled(Closing, more, prefix);
        after := [];
        assert s == tail + (after + end) && prefix + tail == prefix;
      }
    case After =>
      if IsSpace(c) {
        before, tail, after := MatchedIsSpelled(After, more, prefix);
        after := [c] + after;
        assert s == after + end;
      } else {
        before, tail, after := MatchedIsSpelled(Closing, more, prefix);
        after := [];
        assert s == after + end;
      }
    case Closing =>
      assert prefix + tail == prefix;
  }

  /** The scanner recognises exactly the pattern: the match is the only way to read one. */
  lemma MatchIsThePattern(s: string, name: string, rest: string)
    ensures Match(s) == Some(Placeholder(name, rest))
       <==> exists before, after :: Spells(s, before, name, after, rest)
  {
    forall before, after | Spells(s, before, name, after, rest)
      ensures Match(s) == Some(Placeholder(name, rest))
    {
      var inside := before + (name + (after + ("}}" + rest)));
      assert s[1..] == ['{'] + inside && s[1..][1..] == inside;
      SpelledIsMatched(Before, inside, [], before, name, after, rest);
      assert [] + name == name;
    }
    if Match(s) == Some(Placeholder(name, rest)) {
      var inside := s[1..][1..];
      var before, tail, after := MatchedIsSpelled(Before, inside, []);
      assert [] + tail == tail;
      assert s == "{{" + inside;
      assert Spells(s, before, name, after, rest);
    }
  }

  // ---------- Scanning and printing ----------

  datatype Token = Literal(c: char) | Variable(name: string)

  /** Leftmost matches that do not overlap, with the text between them. */
  function Scan(t: string): seq<Token>
    decreases |t|
  {
    if t == [] then []
    else
      var p := Match(t);
      RemainderShrinks(Open, t[1..], []);
      if p.Some? then [Variable(p.value.name)] + Scan(p.value.rest) else [Literal(t[0])] + Scan(t[1..])
  }

  /** A placeholder printed without its spaces. */
  function Print(tokens: seq<Token>): string {
    if tokens == [] then []
    else (match tokens[0]
          case Literal(c) => [c]
          case Variable(name) => "{{" + name + "}}") + Print(tokens[1..])
  }

  /** Up to the first variable, the printed text and the original read the same. */
  lemma {:induction false} SamePhase(phase: Phase, t: string, prefix: string)
    ensures Remainder(phase, Print(Scan(t)), prefix).Some? <==> Remainder(phase, t, prefix).Some?
    decreases |t|
  {
    if t != [] {
      var printed := Print(Scan(t));
      RemainderShrinks(Open, t[1..], []);
      if Match(t).Some? {
        var name := Match(t).value.name;
        PrintedVariable(name, Scan(Match(t).value.rest));
        assert Scan(t) == [Variable(name)] + Scan(Match(t).value.rest);
        assert printed[0] == '{' && t[0] == '{' && printed[1] == '{' && t[1] == '{';
        assert printed[1..][0] == '{' && t[1..][0] == '{';
      } else {
        assert Scan(t) == [Literal(t[0])] + Scan(t[1..]);
        assert printed == [t[0]] + Print(Scan(t[1..]));
        assert printed[1..] == Print(Scan(t[1..]));
        SamePhase(Before, t[1..], prefix);
        SamePhase(InName, t[1..], prefix + [t[0]]);
        SamePhase(After, t[1..], prefix);
        SamePhase(Closing, t[1..], prefix);
      }
    }
  }

  lemma PrintedVariable(name: string, tokens: seq<Token>)
    ensures Print([Variable(name)] + tokens) == "{{" + (name + ("}}" + Print(tokens)))
  {
    assert ([Variable(name)] + tokens)[1..] == tokens;
  }

  lemma MatchedName(t: string)
    requires Match(t).Some?
    ensures IsName(Match(t).value.name)
    ensures |t| > 1 && t[0] == '{' && t[1] == '{'
  {
    MatchIsThePattern(t, Match(t).value.name, Match(t).value.rest);
    var before, after :| Spells(t, before, Match(t).value.name, after, Match(t).value.rest);
  }

  lemma {:induction false} ScanVariable(t: string, name: string, rest: string)
    requires Match(t) == Some(Placeholder(name, rest))
    ensures |rest| < |t| && Scan(t) == [Variable(name)] + Scan(rest)
  {
    RemainderShrinks(Open, t[1..], []);
  }

  lemma RescanVariable(name: string, rest: string)
    requires IsName(name)
    ensures Scan("{{" + (name + ("}}" + rest))) == [Variable(name)] + Scan(rest)
  {
    var t := "{{" + (name + ("}}" + rest));
    assert [] + (name + ([] + ("}}" + rest))) == name + ("}}" + rest);
    assert Spells(t, [], name, [], rest);
    MatchIsThePattern(t, name, rest);
    ScanVariable(t, name, rest);
  }

  lemma {:induction false} RescanLiteral(t: string)
    requires t != [] && Match(t).None?
    ensures Print(Scan(t)) == [t[0]] + Print(Scan(t[1..]))
    ensures Scan(Print(Scan(t))) == [Literal(t[0])] + Scan(Print(Scan(t[1..])))
  {
    var printed := Print(Scan(t[1..]));
    assert Scan(t)[1..] == Scan(t[1..]);
    assert ([t[0]] + printed)[1..] == printed;
    SamePhase(Open, t[1..], []);
    assert Match([t[0]] + printed).None?;
  }

  /** Printing what was scanned and scanning it again gives the same tokens. */
  lemma {:induction false} ScanPrintScan(t: string)
    ensures Scan(Print(Scan(t))) == Scan(t)
    decreases |t|
  {
    if t != [] {
      if Match(t).Some? {
        var name, rest := Match(t).value.name, Match(t).value.rest;
        ScanVariable(t, name, rest);
        ScanPrintScan(rest);
        MatchedName(t);
        PrintedVariable(name, Scan(rest));
        RescanVariable(name, Print(Scan(rest)));
      } else {
        ScanPrintScan(t[1..]);
        RescanLiteral(t);
      }
    }
  }

  // ---------- Validation ----------

  const ALLOWED_TEMPLATE_VARIABLES: set<string> :=
    {"question", "choices", "context", "image", "audio", "video", "language", "output_schema"}

  /** The names of `findall`, as a set. */
  function Names(t: string): set<string>
    decreases |t|
  {
    if t == [] then {}
    else
      var p := Match(t);
      RemainderShrinks(Open, t[1..], []);
      if p.Some? then {p.value.name} + Names(p.value.rest) else Names(t[1..])
  }

  /** `Err` carries the unsupported names. */
  function ValidateTemplate(t: string, extra: set<string>): Result<set<string>, set<string>> {
    var unsupported := Names(t) - (ALLOWED_TEMPLATE_VARIABLES + extra);
    if unsupported != {} then Err(unsupported) else Ok(Names(t))
  }

  lemma {:induction false} NamesAreScanned(t: string, name: string)
    ensures name in Names(t) <==> Variable(name) in Scan(t)
    decreases |t|
  {
    if t != [] {
      RemainderShrinks(Open, t[1..], []);
      if Match(t).Some? {
        NamesAreScanned(Match(t).value.rest, name);
      } else {
        NamesAreScanned(t[1..], name);
      }
    }
  }

  // ---------- Rendering ----------

  function ValueOf(values: map<string, string>, name: string): string {
    if name in values then values[name] else ""
  }

  /** `sub`: from left to right, each match is replaced and scanning goes on behind it. */
  function Substitute(t: string, values: map<string, string>): string
    decreases |t|
  {
    if t == [] then []
    else
      var p := Match(t);
      RemainderShrinks(Open, t[1..], []);
      if p.Some? then ValueOf(values, p.value.name) + Substitute(p.value.rest, values)
      else [t[0]] + Substitute(t[1..], values)
  }

  function RenderTemplate(t: string, values: map<string, string>, extra: set<string>): Result<string, set<string>> {
    var valid := ValidateTemplate(t, extra);
    if valid.Err? then Err(valid.error) else Ok(Substitute(t, values))
  }

  function TokenText(token: Token, values: map<string, string>): string {
    match token
    case Literal(c) => [c]
    case Variable(name) => ValueOf(values, name)
  }

  /** Literals and values in the order of the tokens; values are copied, not read. */
  function Rendered(tokens: seq<Token>, values: map<string, string>): string {
    if tokens == [] then [] else TokenText(tokens[0], values) + Rendered(tokens[1..], values)
  }

  /** Substitution is the single-pass concatenation of literals and values. */
  lemma {:induction false} SubstituteIsConcatenation(t: string, values: map<string, string>)
    ensures Substitute(t, values) == Rendered(Scan(t), values)
    decreases |t|
  {
    if t != [] {
      RemainderShrinks(Open, t[1..], []);
      if Match(t).Some? {
        var rest := Match(t).value.rest;
        SubstituteIsConcatenation(rest, values);
        assert Scan(t)[1..] == Scan(rest);
      } else {
        SubstituteIsConcatenation(t[1..], values);
        assert Scan(t)[1..] == Scan(t[1..]);
      }
    }
  }

  lemma {:induction false} RenderedInParts(first: seq<Token>, second: seq<Token>, values: map<string, string>)
    ensures Rendered(first + second, values) == Rendered(first, values) + Rendered(second, values)
  {
    if first == [] {
      assert first + second == second;
    } else {
      RenderedInParts(first[1..], second, values);
      TailOfBoth(first, second);
      Regroup(TokenText(first[0], values), Rendered(first[1..], values), Rendered(second, values));
    }
  }

  /** A value appears as it is, even when it contains placeholders of its own. */
  lemma ValuesAreNotRescanned(t: string, before: seq<Token>, name: string, after: seq<Token>, values: map<string, string>)
    requires Scan(t) == before + ([Variable(name)] + after)
    ensures Substitute(t, values)
         == Rendered(before, values) + ((if name in values then values[name] else "") + Rendered(after, values))
  {
    SubstituteIsConcatenation(t, values);
    RenderedInParts(before, [Variable(name)] + after, values);
    assert ([Variable(name)] + after)[1..] == after;
  }

  /** The normalised template renders and validates like the original. */
  lemma PrintedTemplateRendersAlike(t: string, values: map<string, string>, extra: set<string>)
    ensures RenderTemplate(Print(Scan(t)), values, extra) == RenderTemplate(t, values, extra)
  {
    var printed := Print(Scan(t));
    ScanPrintScan(t);
    SubstituteIsConcatenation(t, values);
    SubstituteIsConcatenation(printed, values);
    forall name
      ensures name in Names(printed) <==> name in Names(t)
    {
      NamesAreScanned(printed, name);
      NamesAreScanned(t, name);
    }
    assert Names(printed) == Names(t);
  }

  function Uses(tokens: seq<Token>, name: string): nat {
    if tokens == [] then 0 else (if tokens[0] == Variable(name) then 1 else 0) + Uses(tokens[1..], name)
  }

  function With(values: map<string, string>, name: string, value: string): map<string, string> {
    values[name := value]
  }

  lemma {:induction false} UnusedIsIrrelevant(tokens: seq<Token>, values: map<string, string>, name: string, value: string)
    requires Variable(name) !in tokens
    ensures Rendered(tokens, With(values, name, value)) == Rendered(tokens, values)
  {
    if tokens != [] {
      UnusedIsIrrelevant(tokens[1..], values, name, value);
      assert tokens[0] != Variable(name);
    }
  }

  /** Each use adds its value. */
  lemma {:induction false} UsesAddLength(tokens: seq<Token>, values: map<string, string>, name: string)
    ensures |Rendered(tokens, With(values, name, "x"))| == |Rendered(tokens, With(values, name, ""))| + Uses(tokens, name)
  {
    if tokens != [] {
      UsesAddLength(tokens[1..], values, name);
      assert TokenText(tokens[0], With(values, name, "x")) ==
        if tokens[0] == Variable(name) then "x" else TokenText(tokens[0], With(values, name, ""));
    }
  }

  lemma {:induction false} UsedWhenPresent(tokens: seq<Token>, name: string)
    ensures Uses(tokens, name) > 0 <==> Variable(name) in tokens
  {
    if tokens != [] {
      UsedWhenPresent(tokens[1..], name);
      assert tokens == [tokens[0]] + tokens[1..];
    }
  }

  ghost predicate Matters(t: string, values: map<string, string>, name: string) {
    exists value, other :: Substitute(t, With(values, name, value)) != Substitute(t, With(values, name, other))
  }

  /** The validated names are the substituted ones: a value matters exactly when its name is found. */
  lemma NamesAreThoseThatMatter(t: string, values: map<string, string>, name: string)
    ensures name in Names(t) <==> Matters(t, values, name)
  {
    NamesAreScanned(t, name);
    if name in Names(t) {
      UsesAddLength(Scan(t), values, name);
      UsedWhenPresent(Scan(t), name);
      SubstituteIsConcatenation(t, With(values, name, "x"));
      SubstituteIsConcatenation(t, With(values, name, ""));
    } else {
      forall value
        ensures Substitute(t, With(values, name, value)) == Rendered(Scan(t), values)
      {
        SubstituteIsConcatenation(t, With(values, name, value));
        UnusedIsIrrelevant(Scan(t), values, name, value);
      }
    }
  }

  /** Rendering fails exactly on a scanned name that is neither allowed nor extra. */
  lemma RenderFailsOnUnsupported(t: string, values: map<string, string>, extra: set<string>)
    ensures RenderTemplate(t, values, extra).Err?
       <==> exists name :: Variable(name) in Scan(t) && name !in ALLOWED_TEMPLATE_VARIABLES && name !in extra
    ensures RenderTemplate(t, values, extra).Err? ==>
      forall name :: name in RenderTemplate(t, values, extra).error
        <==> Variable(name) in Scan(t) && name !in ALLOWED_TEMPLATE_VARIABLES && name !in extra
    ensures RenderTemplate(t, values, extra).Ok? ==> RenderTemplate(t, values, extra).value == Rendered(Scan(t), values)
  {
    SubstituteIsConcatenation(t, values);
    forall name
      ensures name in Names(t) <==> Variable(name) in Scan(t)
    {
      NamesAreScanned(t, name);
    }
    var unsupported := Names(t) - (ALLOWED_TEMPLATE_VARIABLES + extra);
    assert unsupported != {} <==> exists name :: name in unsupported;
  }
}

/** Text operands: the escaping between a search term and a SQL LIKE pattern, the LIKE
    matcher itself, and the client's compilation of a pattern. */
module LikePatterns {
  import opened Common

  predicate Special(c: char) {
    c == '\\' || c == '%' || c == '_'
  }

  /** Every special character is preceded by a backslash. */
  function Escape(s: string): string {
    if s == "" then ""
    else if Special(s[0]) then ['\\', s[0]] + Escape(s[1..])
    else [s[0]] + Escape(s[1..])
  }

  /** Drop each backslash that precedes a special character. */
  function Unescape(s: string): string {
    if s == "" then ""
    else if |s| >= 2 && s[0] == '\\' && Special(s[1]) then [s[1]] + Unescape(s[2..])
    else [s[0]] + Unescape(s[1..])
  }

  lemma {:induction false} UnescapeEscape(s: string)
    ensures Unescape(Escape(s)) == s
  {
    if s != "" {
      UnescapeEscape(s[1..]);
      var rest := Escape(s[1..]);
      if Special(s[0]) {
        assert (['\\', s[0]] + rest)[2..] == rest;
      } else {
        assert ([s[0]] + rest)[1..] == rest;
      }
    }
  }

  // ---- The three search forms --------------------------------------------------

  datatype Form = Contains | StartsWith | EndsWith

  function Opens(form: Form): string {
    if form.StartsWith? then "" else "%"
  }

  function Closes(form: Form): string {
    if form.EndsWith? then "" else "%"
  }

  function ToPattern(form: Form, term: string): string {
    Opens(form) + Escape(term) + Closes(form)
  }

  datatype Recovered = NoTerm | Term(term: string)

  /** Recover a term from a pattern, only when encoding it again gives that pattern. JavaScript
      slices clamp, so a pattern shorter than its wildcards leaves the empty text. */
  function FromPattern(form: Form, pattern: string): (r: Recovered)
    ensures r.Term? <==> exists s :: ToPattern(form, s) == pattern
    ensures r.Term? ==> ToPattern(form, r.term) == pattern
  {
    var lo := |Opens(form)|;
    var hi := |pattern| - |Closes(form)|;
    var text := if lo <= hi then Unescape(pattern[lo..hi]) else "";
    assert forall s :: ToPattern(form, s) == pattern ==> s == text by {
      forall s | ToPattern(form, s) == pattern ensures s == text {
        UnescapeEscape(s);
        assert pattern[lo..hi] == Escape(s);
      }
    }
    if ToPattern(form, text) == pattern then Term(text) else NoTerm
  }

  lemma OperandRoundTrip(form: Form, term: string)
    ensures FromPattern(form, ToPattern(form, term)) == Term(term)
  {
    var r := FromPattern(form, ToPattern(form, term));
    assert ToPattern(form, r.term)[|Opens(form)|..|Opens(form)| + |Escape(r.term)|] == Escape(r.term);
    UnescapeEscape(term);
    UnescapeEscape(r.term);
    assert ToPattern(form, term)[|Opens(form)|..|ToPattern(form, term)| - |Closes(form)|] == Escape(term);
    assert ToPattern(form, r.term)[|Opens(form)|..|ToPattern(form, r.term)| - |Closes(form)|] == Escape(r.term);
  }

  // ---- SQL LIKE ------------------------------------------------------------------

  /** The LIKE predicate with escape character backslash, on the patterns it is defined for. On a
      dangling pattern, where SQL raises an error, a trailing backslash stands for itself. */
  predicate Like(pattern: string, value: string)
    decreases |pattern|, |value|
  {
    if pattern == "" then value == ""
    else if pattern[0] == '%' then Like(pattern[1..], value) || (value != "" && Like(pattern, value[1..]))
    else if value == "" then false
    else if pattern[0] == '_' then Like(pattern[1..], value[1..])
    else if pattern[0] == '\\' && |pattern| >= 2 then pattern[1] == value[0] && Like(pattern[2..], value[1..])
    else pattern[0] == value[0] && Like(pattern[1..], value[1..])
  }

  /** The pattern ends in a backslash that escapes nothing. */
  predicate Dangling(pattern: string) {
    pattern != "" &&
    (if pattern[0] == '\\' then |pattern| == 1 || Dangling(pattern[2..]) else Dangling(pattern[1..]))
  }

  /** What SQL answers: an error on a dangling pattern. */
  function SqlLike(pattern: string, value: string): Option<bool> {
    if Dangling(pattern) then None else Some(Like(pattern, value))
  }

  /** An escaped term consumes exactly itself. */
  lemma {:induction false} LikeEscaped(term: string, rest: string, value: string)
    ensures Like(Escape(term) + rest, value) <==> term <= value && Like(rest, value[|term|..])
    decreases |term|
  {
    if term == "" {
      assert Escape(term) + rest == rest;
      assert value[0..] == value;
    } else {
      var tail := Escape(term[1..]) + rest;
      var p := Escape(term) + rest;
      if Special(term[0]) {
        assert p == ['\\', term[0]] + tail;
        assert p[2..] == tail;
      } else {
        assert p == [term[0]] + tail;
        assert p[1..] == tail;
      }
      if value != "" {
        PrefixStep(term, value);
        if value[0] == term[0] {
          LikeEscaped(term[1..], rest, value[1..]);
        }
      }
    }
  }

  lemma PrefixStep(term: string, value: string)
    requires term != "" && value != ""
    ensures term <= value <==> value[0] == term[0] && term[1..] <= value[1..]
    ensures term <= value ==> value[1..][|term| - 1..] == value[|term|..]
  {
    if value[0] == term[0] && term[1..] <= value[1..] {
      assert term == [term[0]] + term[1..] && value == [value[0]] + value[1..];
    }
  }

  /** A leading wildcard matches any split of the value. */
  lemma {:induction false} LikeWildcard(rest: string, value: string)
    ensures Like("%" + rest, value) <==> exists k :: 0 <= k <= |value| && Like(rest, value[k..])
    decreases |value|
  {
    var p := "%" + rest;
    assert p[1..] == rest;
    if value != "" {
      LikeWildcard(rest, value[1..]);
      if Like(rest, value) {
        assert value[0..] == value;
      }
      if k :| 0 <= k <= |value[1..]| && Like(rest, value[1..][k..]) {
        assert value[1..][k..] == value[k + 1..];
      }
      if k :| 0 <= k <= |value| && Like(rest, value[k..]) {
        if k == 0 {
          assert value[0..] == value;
        } else {
          assert value[k..] == value[1..][k - 1..];
        }
      }
    } else {
      assert value[0..] == value;
    }
  }

  lemma LikeAnything(value: string)
    ensures Like("%", value)
  {
    LikeWildcard("", value);
    assert "%" + "" == "%" && Like("", value[|value|..]);
  }

  /** What a search form says of two sequences: of the characters of a text, or of its units. */
  ghost predicate Matches<T>(form: Form, term: seq<T>, value: seq<T>) {
    match form
    case Contains => exists k :: 0 <= k <= |value| && term <= value[k..]
    case StartsWith => term <= value
    case EndsWith => |term| <= |value| && value[|value| - |term|..] == term
  }

  lemma DanglingStep(c: char, tail: string)
    ensures c != '\\' ==> (Dangling([c] + tail) <==> Dangling(tail))
    ensures Dangling(['\\', c] + tail) <==> Dangling(tail)
  {
    assert ([c] + tail)[1..] == tail;
    assert (['\\', c] + tail)[2..] == tail;
  }

  lemma EscapeHead(term: string, rest: string)
    requires term != ""
    ensures Escape(term) + rest == (if Special(term[0]) then ['\\', term[0]] else [term[0]]) + (Escape(term[1..]) + rest)
  {
  }

  /** A pattern made of escaped terms is never dangling. */
  lemma {:induction false} EscapedIsNotDangling(term: string, rest: string)
    ensures Dangling(Escape(term) + rest) <==> Dangling(rest)
  {
    if term == "" {
      assert Escape(term) + rest == rest;
    } else {
      EscapeHead(term, rest);
      DanglingStep(term[0], Escape(term[1..]) + rest);
      EscapedIsNotDangling(term[1..], rest);
    }
  }

  lemma PatternIsNotDangling(form: Form, term: string)
    ensures !Dangling(ToPattern(form, term))
  {
    var closing := Escape(term) + Closes(form);
    EscapedIsNotDangling(term, Closes(form));
    assert !Dangling(Closes(form));
    assert ToPattern(form, term) == if form.StartsWith? then closing else "%" + closing;
    assert ("%" + closing)[1..] == closing;
  }

  lemma PatternMeansText(form: Form, term: string, value: string)
    ensures SqlLike(ToPattern(form, term), value) == Some(Matches(form, term, value))
  {
    PatternIsNotDangling(form, term);
    var closing := Escape(term) + Closes(form);
    match form
    case StartsWith =>
      assert ToPattern(form, term) == closing;
      LikeEscaped(term, "%", value);
      if term <= value { LikeAnything(value[|term|..]); }
    case Contains =>
      assert ToPattern(form, term) == "%" + closing;
      LikeWildcard(closing, value);
      forall k | 0 <= k <= |value| ensures Like(closing, value[k..]) <==> term <= value[k..] {
        LikeEscaped(term, "%", value[k..]);
        if term <= value[k..] { LikeAnything(value[k..][|term|..]); }
      }
    case EndsWith =>
      assert ToPattern(form, term) == "%" + closing;
      LikeWildcard(closing, value);
      forall k | 0 <= k <= |value| ensures Like(closing, value[k..]) <==> value[k..] == term {
        LikeEscaped(term, "", value[k..]);
      }
      if |term| <= |value| && value[|value| - |term|..] == term {
        var k := |value| - |term|;
        assert Like(closing, value[k..]);
      }
  }

  // ---- The client's compiled pattern ----------------------------------------------

  /** The pieces of the anchored regular expression a pattern compiles to. */
  datatype Token<T> = Literal(c: T) | AnyRun | AnyOne

  /** A backslash that is not itself escaped is held back for the next character. */
  predicate HoldsBack(c: char, escaped: bool) {
    !escaped && c == '\\'
  }

  function Piece(c: char, escaped: bool): seq<Token<char>> {
    if escaped then [Literal(c)]
    else if c == '\\' then []
    else if c == '%' then [AnyRun]
    else if c == '_' then [AnyOne]
    else [Literal(c)]
  }

  /** The compilation left to right; `escaped` says that a backslash is held back. */
  function Tokens(pattern: string, escaped: bool): seq<Token<char>> {
    if pattern == "" then (if escaped then [Literal('\\')] else [])
    else Piece(pattern[0], escaped) + Tokens(pattern[1..], HoldsBack(pattern[0], escaped))
  }

  lemma TokensStep(done: seq<Token<char>>, pattern: string, k: nat, escaped: bool)
    requires k < |pattern|
    ensures done + Tokens(pattern[k..], escaped) ==
            done + Piece(pattern[k], escaped) + Tokens(pattern[k + 1..], HoldsBack(pattern[k], escaped))
  {
    assert pattern[k..][0] == pattern[k] && pattern[k..][1..] == pattern[k + 1..];
  }

  method CompilePattern(pattern: string) returns (tokens: seq<Token<char>>)
    ensures tokens == Tokens(pattern, false)
  {
    tokens := [];
    var escaped := false;
    for k := 0 to |pattern|
      invariant tokens + Tokens(pattern[k..], escaped) == Tokens(pattern, false)
    {
      var c := pattern[k];
      TokensStep(tokens, pattern, k, escaped);
      if escaped {
        tokens, escaped := tokens + [Literal(c)], false;
      } else if c == '\\' {
        assert tokens + [] == tokens;
        escaped := true;
      } else if c == '%' {
        tokens := tokens + [AnyRun];
      } else if c == '_' {
        tokens := tokens + [AnyOne];
      } else {
        tokens := tokens + [Literal(c)];
      }
    }
    if escaped {
      tokens := tokens + [Literal('\\')];
    }
  }

  /** An anchored match of the whole value: of its characters, or of its units. */
  predicate MatchTokens<T(==)>(tokens: seq<Token<T>>, value: seq<T>)
    decreases |tokens|, |value|
  {
    if tokens == [] then value == []
    else match tokens[0]
      case AnyRun => MatchTokens(tokens[1..], value) || (value != [] && MatchTokens(tokens, value[1..]))
      case AnyOne => value != [] && MatchTokens(tokens[1..], value[1..])
      case Literal(c) => value != [] && value[0] == c && MatchTokens(tokens[1..], value[1..])
  }

  /** Read character by character, the tokens match what LIKE matches. */
  lemma {:induction false} CompiledPatternIsLike(pattern: string, value: string)
    ensures MatchTokens(Tokens(pattern, false), value) <==> Like(pattern, value)
    decreases |pattern|, |value|
  {
    if pattern != "" {
      var t := Tokens(pattern, false);
      assert pattern[0] == '\\' ==> t == Tokens(pattern[1..], true);
      if pattern[0] == '\\' && |pattern| >= 2 {
        var rest := Tokens(pattern[1..][1..], false);
        assert pattern[1..][1..] == pattern[2..];
        assert t == [Literal(pattern[1])] + rest && t[1..] == rest;
        if value != "" { CompiledPatternIsLike(pattern[2..], value[1..]); }
      } else if pattern[0] == '\\' {
        assert pattern[1..] == "" && t == [Literal('\\')] && t[1..] == [];
        if value != "" { CompiledPatternIsLike("", value[1..]); }
      } else {
        var rest := Tokens(pattern[1..], false);
        assert t[1..] == rest;
        if pattern[0] == '%' { CompiledPatternIsLike(pattern[1..], value); }
        if value != "" {
          if pattern[0] == '%' {
            CompiledPatternIsLike(pattern, value[1..]);
          } else {
            CompiledPatternIsLike(pattern[1..], value[1..]);
          }
        }
      }
    }
  }

  predicate HasSpecial(pattern: string) {
    exists k :: 0 <= k < |pattern| && Special(pattern[k])
  }

  lemma {:induction false} LikePlain(pattern: string, value: string)
    requires !HasSpecial(pattern)
    ensures Like(pattern, value) <==> pattern == value
  {
    if pattern != "" {
      assert !Special(pattern[0]);
      forall k | 0 <= k < |pattern[1..]| ensures !Special(pattern[1..][k]) {
        assert pattern[1..][k] == pattern[k + 1];
      }
      if value != "" {
        LikePlain(pattern[1..], value[1..]);
        assert pattern == [pattern[0]] + pattern[1..] && value == [value[0]] + value[1..];
      }
    }
  }

  // ---- UTF-16 units ----------------------------------------------------------------

  /** A character beyond the basic plane is two units, a high and a low surrogate. */
  function UnitsOf(c: char): seq<nat> {
    var code := c as int;
    if code < 0x10000 then [code] else [0xD800 + (code - 0x10000) / 0x400, 0xDC00 + (code - 0x10000) % 0x400]
  }

  function Units(s: string): seq<nat> {
    if s == "" then [] else UnitsOf(s[0]) + Units(s[1..])
  }

  predicate Astral(c: char) {
    c as int >= 0x10000
  }

  predicate Low(unit: nat) {
    0xDC00 <= unit < 0xE000
  }

  predicate High(unit: nat) {
    0xD800 <= unit < 0xDC00
  }

  lemma UnitsOfMeans(c: char)
    ensures !Astral(c) ==> |UnitsOf(c)| == 1 && !Low(UnitsOf(c)[0]) && !High(UnitsOf(c)[0])
    ensures Astral(c) ==> |UnitsOf(c)| == 2 && High(UnitsOf(c)[0]) && Low(UnitsOf(c)[1])
  {
  }

  lemma UnitsOfDiffer(c: char, d: char)
    requires UnitsOf(c)[0] == UnitsOf(d)[0]
    ensures Astral(c) <==> Astral(d)
    ensures UnitsOf(c) == UnitsOf(d) ==> c == d
  {
    UnitsOfMeans(c);
    UnitsOfMeans(d);
  }

  function Literals<T>(s: seq<T>): seq<Token<T>> {
    if s == [] then [] else [Literal(s[0])] + Literals(s[1..])
  }

  /** The expression's tokens as they match units: without the `u` flag a character beyond the
      basic plane is two literals, and the dot is one unit. */
  function SpelledOne(t: Token<char>): seq<Token<nat>> {
    match t
    case Literal(c) => Literals(UnitsOf(c))
    case AnyRun => [AnyRun]
    case AnyOne => [AnyOne]
  }

  function Spelled(tokens: seq<Token<char>>): seq<Token<nat>> {
    if tokens == [] then [] else SpelledOne(tokens[0]) + Spelled(tokens[1..])
  }

  /** The client's `like`: a pattern with nothing special in it is a substring search. */
  ghost predicate ClientLike(pattern: string, value: string) {
    if HasSpecial(pattern) then MatchTokens(Spelled(Tokens(pattern, false)), Units(value))
    else Matches(Contains, Units(pattern), Units(value))
  }

  // ---- Matching units and matching characters ------------------------------------------

  /** Whether the tokens match the units of a value, whole or with a low surrogate before it. */
  predicate OnUnits(t: seq<Token<char>>, v: string) {
    MatchTokens(Spelled(t), Units(v))
  }

  predicate OnRest(t: seq<Token<char>>, low: nat, v: string) {
    MatchTokens(Spelled(t), [low] + Units(v))
  }

  function LowOf(c: char): nat
    requires Astral(c)
  {
    UnitsOf(c)[1]
  }

  lemma UnitsEmpty(v: string)
    ensures Units(v) == [] <==> v == ""
    ensures OnUnits([], v) <==> v == ""
  {
    if v != "" { UnitsOfMeans(v[0]); }
  }

  lemma UnitsStep(v: string)
    requires v != ""
    ensures !Astral(v[0]) ==> Units(v)[0] == UnitsOf(v[0])[0] && Units(v)[1..] == Units(v[1..])
    ensures Astral(v[0]) ==> Units(v)[0] == UnitsOf(v[0])[0] && Units(v)[1..] == [LowOf(v[0])] + Units(v[1..])
  {
    UnitsOfMeans(v[0]);
  }

  lemma RunOnUnits(t: seq<Token<char>>, v: string)
    requires t != [] && t[0].AnyRun?
    ensures OnUnits(t, v) <==>
            || OnUnits(t[1..], v)
            || (v != "" && OnUnits(t, v[1..]))
            || (v != "" && Astral(v[0]) && OnRest(t[1..], LowOf(v[0]), v[1..]))
  {
    var s := Spelled(t);
    assert s[1..] == Spelled(t[1..]);
    UnitsEmpty(v);
    if v != "" {
      UnitsStep(v);
      if Astral(v[0]) { RunOnRest(t, LowOf(v[0]), v[1..]); }
    }
  }

  lemma RunOnRest(t: seq<Token<char>>, low: nat, v: string)
    requires t != [] && t[0].AnyRun?
    ensures OnRest(t, low, v) <==> OnRest(t[1..], low, v) || OnUnits(t, v)
  {
    assert Spelled(t)[1..] == Spelled(t[1..]);
    assert ([low] + Units(v))[1..] == Units(v);
  }

  lemma OneOnUnits(t: seq<Token<char>>, v: string)
    requires t != [] && t[0].AnyOne?
    ensures OnUnits(t, v) <==>
            v != "" && if Astral(v[0]) then OnRest(t[1..], LowOf(v[0]), v[1..]) else OnUnits(t[1..], v[1..])
  {
    assert Spelled(t)[1..] == Spelled(t[1..]);
    UnitsEmpty(v);
    if v != "" { UnitsStep(v); }
  }

  lemma OneOnRest(t: seq<Token<char>>, low: nat, v: string)
    requires t != [] && t[0].AnyOne?
    ensures OnRest(t, low, v) <==> OnUnits(t[1..], v)
  {
    assert Spelled(t)[1..] == Spelled(t[1..]);
    assert ([low] + Units(v))[1..] == Units(v);
  }

  lemma SpelledLiteral(t: seq<Token<char>>)
    requires t != [] && t[0].Literal?
    ensures var u := UnitsOf(t[0].c);
            && Spelled(t) != [] && Spelled(t)[0] == Literal(u[0])
            && (!Astral(t[0].c) ==> Spelled(t)[1..] == Spelled(t[1..]))
            && (Astral(t[0].c) ==> Spelled(t)[1..] == [Literal(u[1])] + Spelled(t[1..]))
  {
    LiteralsOfOne(t[0].c);
    var one, rest := SpelledOne(t[0]), Spelled(t[1..]);
    assert (one + rest)[1..] == one[1..] + rest;
  }

  lemma LiteralsOfOne(c: char)
    ensures var u, one := UnitsOf(c), Literals(UnitsOf(c));
            && one != [] && one[0] == Literal(u[0])
            && one[1..] == if Astral(c) then [Literal(u[1])] else []
  {
    var u := UnitsOf(c);
    UnitsOfMeans(c);
    if Astral(c) {
      assert u[1..] == [u[1]] && u[1..][1..] == [];
      assert Literals(u[1..]) == [Literal(u[1])];
    } else {
      assert u[1..] == [];
    }
  }

  /** A literal is never matched from the middle of a character. */
  lemma LiteralOnUnits(t: seq<Token<char>>, v: string)
    requires t != [] && t[0].Literal?
    ensures OnUnits(t, v) <==> v != "" && v[0] == t[0].c && OnUnits(t[1..], v[1..])
  {
    var c := t[0].c;
    SpelledLiteral(t);
    UnitsEmpty(v);
    if v != "" {
      UnitsStep(v);
      UnitsOfMeans(c);
      UnitsOfMeans(v[0]);
      if UnitsOf(c)[0] == UnitsOf(v[0])[0] {
        UnitsOfDiffer(c, v[0]);
        if Astral(c) {
          var more := [Literal(UnitsOf(c)[1])] + Spelled(t[1..]);
          var rest := [LowOf(v[0])] + Units(v[1..]);
          assert more[1..] == Spelled(t[1..]) && rest[1..] == Units(v[1..]);
          assert OnUnits(t, v) <==> MatchTokens(more, rest);
          assert UnitsOf(c) == UnitsOf(v[0]) <==> UnitsOf(c)[1] == UnitsOf(v[0])[1];
        } else {
          assert UnitsOf(c) == UnitsOf(v[0]);
        }
      }
    }
  }

  lemma LiteralOnRest(t: seq<Token<char>>, low: nat, v: string)
    requires t == [] || t[0].Literal?
    requires Low(low)
    ensures !OnRest(t, low, v)
  {
    if t != [] {
      SpelledLiteral(t);
      UnitsOfMeans(t[0].c);
    }
  }

  /** Between two literals there is no underscore, or one and a percent sign with it. */
  predicate Loose(t: seq<Token<char>>) {
    t == [] ||
    match t[0]
    case Literal(_) => Loose(t[1..])
    case AnyRun => LooseAfterRun(t[1..])
    case AnyOne => |t| > 1 && t[1].AnyRun? && LooseAfterOne(t[2..])
  }

  predicate LooseAfterRun(t: seq<Token<char>>) {
    t == [] ||
    match t[0]
    case Literal(_) => Loose(t[1..])
    case AnyRun => LooseAfterRun(t[1..])
    case AnyOne => LooseAfterOne(t[1..])
  }

  predicate LooseAfterOne(t: seq<Token<char>>) {
    t == [] ||
    match t[0]
    case Literal(_) => Loose(t[1..])
    case AnyRun => LooseAfterOne(t[1..])
    case AnyOne => false
  }

  /** A value without characters beyond the basic plane is matched alike by every pattern. */
  lemma {:induction false} PlainAlike(t: seq<Token<char>>, v: string)
    requires forall c :: c in v ==> !Astral(c)
    ensures OnUnits(t, v) <==> MatchTokens(t, v)
    decreases |t|, |v|
  {
    UnitsEmpty(v);
    if t != [] {
      match t[0] {
        case AnyRun =>
          RunOnUnits(t, v);
          PlainAlike(t[1..], v);
          if v != "" { PlainAlike(t, v[1..]); }
        case AnyOne =>
          OneOnUnits(t, v);
          if v != "" { PlainAlike(t[1..], v[1..]); }
        case Literal(_) =>
          LiteralOnUnits(t, v);
          if v != "" { PlainAlike(t[1..], v[1..]); }
      }
    }
  }

  function Run(t: seq<Token<char>>): seq<Token<char>> {
    [AnyRun] + t
  }

  lemma RunStep(t: seq<Token<char>>, v: string)
    ensures Run(t)[1..] == t
    ensures MatchTokens(Run(t), v) <==> MatchTokens(t, v) || (v != "" && MatchTokens(Run(t), v[1..]))
  {
  }

  /** Loose tokens match the units of every value as they match its characters. */
  lemma {:induction false} LooseAlike(t: seq<Token<char>>, v: string)
    requires Loose(t)
    ensures OnUnits(t, v) <==> MatchTokens(t, v)
    decreases |t|, |v|, 5
  {
    UnitsEmpty(v);
    if t != [] {
      match t[0] {
        case Literal(_) =>
          LiteralOnUnits(t, v);
          if v != "" { LooseAlike(t[1..], v[1..]); }
        case AnyRun =>
          assert t == Run(t[1..]);
          AfterRunAlike(t[1..], v);
        case AnyOne =>
          OneOnUnits(t, v);
          assert t[1..] == Run(t[2..]);
          if v != "" {
            AfterOneAlike(t[2..], v[1..]);
            if Astral(v[0]) {
              UnitsOfMeans(v[0]);
              RunOnRest(t[1..], LowOf(v[0]), v[1..]);
              AfterOneRest(t[2..], LowOf(v[0]), v[1..]);
            }
          }
      }
    }
  }

  lemma {:induction false} AfterOneAlike(t: seq<Token<char>>, v: string)
    requires LooseAfterOne(t)
    ensures OnUnits(t, v) <==> MatchTokens(t, v)
    ensures OnUnits(Run(t), v) <==> MatchTokens(Run(t), v)
    decreases |t| + 1, |v|, 2
  {
    UnitsEmpty(v);
    if t != [] {
      if t[0].AnyRun? {
        assert t == Run(t[1..]);
        AfterOneAlike(t[1..], v);
      } else {
        LooseAlike(t, v);
      }
    }
    RunStep(t, v);
    RunOnUnits(Run(t), v);
    if v != "" {
      AfterOneAlike(t, v[1..]);
      if Astral(v[0]) {
        UnitsOfMeans(v[0]);
        AfterOneRest(t, LowOf(v[0]), v[1..]);
      }
    }
  }

  lemma {:induction false} AfterOneRest(t: seq<Token<char>>, low: nat, v: string)
    requires LooseAfterOne(t) && Low(low)
    ensures OnRest(t, low, v) ==> MatchTokens(Run(t), v)
    decreases |t| + 1, |v|, 1
  {
    if t == [] || t[0].Literal? {
      LiteralOnRest(t, low, v);
    } else {
      assert t == Run(t[1..]);
      RunOnRest(t, low, v);
      AfterOneRest(t[1..], low, v);
      AfterOneAlike(t[1..], v);
      RunStep(t, v);
    }
  }

  lemma {:induction false} AfterRunAlike(t: seq<Token<char>>, v: string)
    requires LooseAfterRun(t)
    ensures OnUnits(Run(t), v) <==> MatchTokens(Run(t), v)
    decreases |t| + 1, |v|, 3
  {
    RunStep(t, v);
    RunOnUnits(Run(t), v);
    AfterRunHere(t, v);
    if v != "" {
      AfterRunAlike(t, v[1..]);
      if Astral(v[0]) {
        UnitsOfMeans(v[0]);
        AfterRunRest(t, LowOf(v[0]), v);
      }
    }
  }

  /** What follows a run is matched at the start of a value, on its units from there or from the
      middle of its first character. */
  lemma {:induction false} AfterRunHere(t: seq<Token<char>>, v: string)
    requires LooseAfterRun(t)
    ensures OnUnits(t, v) ==> MatchTokens(Run(t), v)
    ensures MatchTokens(t, v) ==> OnUnits(t, v) || (v != "" && Astral(v[0]) && OnRest(t, LowOf(v[0]), v[1..]))
    decreases |t| + 1, |v|, 2
  {
    RunStep(t, v);
    if t == [] {
      UnitsEmpty(v);
    } else if t[0].Literal? {
      LooseAlike(t, v);
    } else if t[0].AnyRun? {
      assert t == Run(t[1..]);
      AfterRunAlike(t[1..], v);
    } else {
      OneOnUnits(t, v);
      if v != "" {
        AfterOneAlike(t[1..], v[1..]);
        if Astral(v[0]) {
          UnitsOfMeans(v[0]);
          OneOnRest(t, LowOf(v[0]), v[1..]);
          AfterOneRest(t[1..], LowOf(v[0]), v[1..]);
          if MatchTokens(Run(t[1..]), v[1..]) { OneLater(t[1..], v); }
          assert Run(t) == [AnyRun, AnyOne] + t[1..];
        }
      }
    }
  }

  lemma {:induction false} AfterRunRest(t: seq<Token<char>>, low: nat, v: string)
    requires LooseAfterRun(t) && Low(low) && v != ""
    ensures OnRest(t, low, v[1..]) ==> MatchTokens(Run(t), v)
    decreases |t| + 1, |v|, 1
  {
    if t == [] || t[0].Literal? {
      LiteralOnRest(t, low, v[1..]);
    } else if t[0].AnyRun? {
      assert t == Run(t[1..]);
      RunOnRest(t, low, v[1..]);
      AfterRunRest(t[1..], low, v);
      AfterRunAlike(t[1..], v[1..]);
      RunStep(t, v);
      RunStep(t, v[1..]);
    } else {
      OneOnRest(t, low, v[1..]);
      AfterOneAlike(t[1..], v[1..]);
      RunStep(t, v);
    }
  }

  /** What a run followed by something matches, it matches one character later too. */
  lemma {:induction false} OneLater(t: seq<Token<char>>, v: string)
    requires v != "" && MatchTokens(Run(t), v[1..])
    ensures MatchTokens([AnyRun, AnyOne] + t, v)
    decreases |v|
  {
    var later := [AnyRun, AnyOne] + t;
    assert later[1..] == [AnyOne] + t && later[1..][1..] == t;
    RunStep(t, v[1..]);
    if !MatchTokens(t, v[1..]) { OneLater(t, v[1..]); }
  }

  // ---- The search forms on units ----------------------------------------------------------

  lemma {:induction false} LiteralsMatch<T(!new)>(s: seq<T>, rest: seq<Token<T>>, value: seq<T>)
    ensures MatchTokens(Literals(s) + rest, value) <==> s <= value && MatchTokens(rest, value[|s|..])
  {
    if s == [] {
      assert Literals(s) + rest == rest && value[0..] == value;
    } else {
      var t := Literals(s) + rest;
      assert t[1..] == Literals(s[1..]) + rest;
      if value != [] && value[0] == s[0] {
        LiteralsMatch(s[1..], rest, value[1..]);
        if s[1..] <= value[1..] { assert s == [s[0]] + s[1..] && value == [value[0]] + value[1..]; }
      }
    }
  }

  lemma {:induction false} RunMatches<T(!new)>(rest: seq<Token<T>>, value: seq<T>)
    ensures MatchTokens([AnyRun] + rest, value) <==> exists k :: 0 <= k <= |value| && MatchTokens(rest, value[k..])
  {
    assert ([AnyRun] + rest)[1..] == rest && value[0..] == value;
    if value != [] {
      RunMatches(rest, value[1..]);
      assert forall k :: 0 < k <= |value| ==> value[k..] == value[1..][k - 1..];
      if k :| 0 <= k <= |value[1..]| && MatchTokens(rest, value[1..][k..]) {
        assert value[k + 1..] == value[1..][k..];
      }
    }
  }

  function FormTokens<T>(form: Form, s: seq<T>): seq<Token<T>> {
    (if form.StartsWith? then [] else [AnyRun]) + Literals(s) + (if form.EndsWith? then [] else [AnyRun])
  }

  lemma FormMatches<T(!new)>(form: Form, s: seq<T>, value: seq<T>)
    ensures MatchTokens(FormTokens(form, s), value) <==> Matches(form, s, value)
  {
    var closing: seq<Token<T>> := if form.EndsWith? then [] else [AnyRun];
    var t := Literals(s) + closing;
    LiteralsMatch(s, closing, value);
    RunMatches(t, value);
    assert FormTokens(form, s) == if form.StartsWith? then t else [AnyRun] + t;
    forall k | 0 <= k <= |value|
      ensures MatchTokens(t, value[k..]) <==> s <= value[k..] && (form.EndsWith? ==> value[k..] == s)
    {
      LiteralsMatch(s, closing, value[k..]);
      if s <= value[k..] { AnythingMatches(value[k..][|s|..]); }
    }
    if s <= value { AnythingMatches(value[|s|..]); }
    if form.EndsWith? && |s| <= |value| && value[|value| - |s|..] == s {
      assert MatchTokens(t, value[|value| - |s|..]);
    }
  }

  lemma AnythingMatches<T(!new)>(value: seq<T>)
    ensures MatchTokens([AnyRun], value)
  {
    RunMatches([], value);
    assert value[|value|..] == [];
  }

  lemma {:induction false} SpelledAppend(s: seq<Token<char>>, t: seq<Token<char>>)
    ensures Spelled(s + t) == Spelled(s) + Spelled(t)
  {
    if s == [] {
      assert s + t == t;
    } else {
      assert (s + t)[1..] == s[1..] + t;
      SpelledAppend(s[1..], t);
    }
  }

  lemma {:induction false} LiteralsAppend(s: seq<nat>, t: seq<nat>)
    ensures Literals(s + t) == Literals(s) + Literals(t)
  {
    if s == [] {
      assert s + t == t;
    } else {
      assert (s + t)[1..] == s[1..] + t;
      LiteralsAppend(s[1..], t);
    }
  }

  lemma {:induction false} SpelledLiterals(s: string)
    ensures Spelled(Literals(s)) == Literals(Units(s))
  {
    if s != "" {
      SpelledLiterals(s[1..]);
      LiteralsAppend(UnitsOf(s[0]), Units(s[1..]));
    }
  }

  lemma {:induction false} LooseLiterals(s: string, t: seq<Token<char>>)
    requires t == [] || t == [AnyRun]
    ensures Loose(Literals(s) + t) && LooseAfterRun(Literals(s) + t)
  {
    if s == "" {
      assert Literals(s) + t == t;
    } else {
      assert (Literals(s) + t)[1..] == Literals(s[1..]) + t;
      LooseLiterals(s[1..], t);
    }
  }

  /** Searching the units of a text is searching its characters. */
  lemma UnitsMatch(form: Form, term: string, value: string)
    ensures Matches(form, Units(term), Units(value)) <==> Matches(form, term, value)
  {
    var opening: seq<Token<char>> := if form.StartsWith? then [] else [AnyRun];
    var closing: seq<Token<char>> := if form.EndsWith? then [] else [AnyRun];
    FormMatches(form, term, value);
    FormMatches(form, Units(term), Units(value));
    LooseLiterals(term, closing);
    var t := Literals(term) + closing;
    assert FormTokens(form, term) == if form.StartsWith? then t else Run(t);
    LooseAlike(FormTokens(form, term), value);
    SpelledAppend(opening + Literals(term), closing);
    SpelledAppend(opening, Literals(term));
    SpelledLiterals(term);
    SpelledRun();
    assert Spelled(FormTokens(form, term)) == FormTokens(form, Units(term));
  }

  lemma SpelledRun()
    ensures Spelled([AnyRun]) == [AnyRun]
  {
    var run: seq<Token<char>> := [AnyRun];
    assert run[1..] == [];
  }

  /** What is sent for a search form is a pattern SQL accepts, and it answers as the client does. */
  lemma PatternMeansForm(form: Form, term: string, value: string)
    ensures SqlLike(ToPattern(form, term), value) == Some(Matches(form, Units(term), Units(value)))
  {
    PatternMeansText(form, term, value);
    UnitsMatch(form, term, value);
  }

  // ---- Where the client and SQL part ---------------------------------------------------------

  /** The shortest value the tokens match, with `x` for each single character. */
  function Fill<T>(t: seq<Token<T>>, x: T): seq<T> {
    if t == [] then [] else FillOne(t[0], x) + Fill(t[1..], x)
  }

  function FillOne<T>(t: Token<T>, x: T): seq<T> {
    match t
    case Literal(c) => [c]
    case AnyOne => [x]
    case AnyRun => []
  }

  lemma Assoc<T>(a: seq<T>, b: seq<T>, c: seq<T>)
    ensures a + b + c == a + (b + c)
  {
  }

  lemma StepMatches<T(!new)>(t: Token<T>, x: T, rest: seq<Token<T>>, v: seq<T>)
    requires MatchTokens(rest, v)
    ensures MatchTokens([t] + rest, FillOne(t, x) + v)
  {
    assert ([t] + rest)[1..] == rest;
    if t.AnyRun? {
      assert FillOne(t, x) + v == v;
    } else {
      assert (FillOne(t, x) + v)[1..] == v;
    }
  }

  lemma {:induction false} FillMatches<T(!new)>(t: seq<Token<T>>, x: T, rest: seq<Token<T>>, v: seq<T>)
    requires MatchTokens(rest, v)
    ensures MatchTokens(t + rest, Fill(t, x) + v)
  {
    if t == [] {
      assert t + rest == rest && Fill(t, x) + v == v;
    } else {
      FillMatches(t[1..], x, rest, v);
      StepMatches(t[0], x, t[1..] + rest, Fill(t[1..], x) + v);
      Assoc([t[0]], t[1..], rest);
      Assoc(FillOne(t[0], x), Fill(t[1..], x), v);
      assert [t[0]] + t[1..] == t;
    }
  }

  lemma {:induction false} FillIsShortest<T(!new)>(t: seq<Token<T>>, x: T, v: seq<T>)
    requires MatchTokens(t, v)
    ensures |v| >= |Fill(t, x)|
    decreases |t|, |v|
  {
    if t != [] {
      if t[0].AnyRun? {
        if MatchTokens(t[1..], v) { FillIsShortest(t[1..], x, v); } else { FillIsShortest(t, x, v[1..]); }
      } else {
        FillIsShortest(t[1..], x, v[1..]);
      }
    }
  }

  lemma {:induction false} FillAppend<T(!new)>(s: seq<Token<T>>, t: seq<Token<T>>, x: T)
    ensures Fill(s + t, x) == Fill(s, x) + Fill(t, x)
  {
    if s == [] {
      assert s + t == t;
    } else {
      assert (s + t)[1..] == s[1..] + t;
      FillAppend(s[1..], t, x);
    }
  }

  lemma {:induction false} FillLiterals<T(!new)>(s: seq<T>, x: T)
    ensures Fill(Literals(s), x) == s
  {
    if s != [] {
      FillLiterals(s[1..], x);
      assert s == [s[0]] + s[1..];
    }
  }

  const X: nat := 'x' as int

  lemma {:induction false} FillSpelled(t: seq<Token<char>>)
    ensures Fill(Spelled(t), X) == Units(Fill(t, 'x'))
  {
    if t != [] {
      FillSpelled(t[1..]);
      FillAppend(SpelledOne(t[0]), Spelled(t[1..]), X);
      assert !t[0].AnyRun? ==> Fill(t, 'x')[1..] == Fill(t[1..], 'x');
      match t[0] {
        case Literal(c) =>
          FillLiterals(UnitsOf(c), X);
          assert Fill(t, 'x') == [c] + Fill(t[1..], 'x');
          assert Units(Fill(t, 'x')) == UnitsOf(c) + Units(Fill(t[1..], 'x'));
        case AnyOne =>
          assert Fill(t, 'x') == ['x'] + Fill(t[1..], 'x');
          assert SpelledOne(t[0])[1..] == [] && Fill(SpelledOne(t[0]), X) == [X] == UnitsOf('x');
        case AnyRun =>
          assert SpelledOne(t[0])[1..] == [];
          assert Fill(t, 'x') == Fill(t[1..], 'x') && Fill(SpelledOne(t[0]), X) == [];
      }
    }
  }

  lemma {:induction false} UnitsAppend(s: string, t: string)
    ensures Units(s + t) == Units(s) + Units(t)
  {
    if s == "" {
      assert s + t == t;
    } else {
      assert (s + t)[1..] == s[1..] + t;
      UnitsAppend(s[1..], t);
    }
  }

  /** A match of a concatenation is made of two matches. */
  lemma {:induction false} Split<T(!new)>(p: seq<Token<T>>, q: seq<Token<T>>, v: seq<T>) returns (k: nat)
    requires MatchTokens(p + q, v)
    ensures k <= |v| && MatchTokens(p, v[..k]) && MatchTokens(q, v[k..])
    decreases |p|, |v|
  {
    if p == [] {
      assert p + q == q && v[0..] == v;
      return 0;
    }
    assert (p + q)[1..] == p[1..] + q;
    if p[0].AnyRun? && MatchTokens(p[1..] + q, v) {
      k := Split(p[1..], q, v);
    } else {
      k := Split(if p[0].AnyRun? then p else p[1..], q, v[1..]);
      k := k + 1;
      assert v[..k][1..] == v[1..][..k - 1] && v[k..] == v[1..][k - 1..];
    }
  }

  const FACE: char := '\U{1F600}'

  /** A run of percent signs. */
  predicate Runs(t: seq<Token<char>>) {
    forall k :: 0 <= k < |t| ==> t[k].AnyRun?
  }

  lemma {:induction false} RunsFill(t: seq<Token<char>>)
    requires Runs(t)
    ensures Fill(t, 'x') == ""
  {
    if t != [] { RunsFill(t[1..]); }
  }

  /** Tokens that are not loose have a gap with an underscore alone, or with two of them. */
  datatype Fault = Alone(p: seq<Token<char>>, s: seq<Token<char>>)
                 | Two(p: seq<Token<char>>, between: seq<Token<char>>, s: seq<Token<char>>)

  predicate Shows(f: Fault, t: seq<Token<char>>) {
    match f
    case Alone(p, s) =>
      && t == p + [AnyOne] + s
      && (p == [] || p[|p| - 1].Literal?) && (s == [] || s[0].Literal?)
    case Two(p, between, s) => t == p + [AnyOne] + between + [AnyOne] + s && Runs(between)
  }

  lemma {:induction false} FindFault(done: seq<Token<char>>, t: seq<Token<char>>) returns (f: Fault)
    requires !Loose(t) && (done == [] || done[|done| - 1].Literal?)
    ensures Shows(f, done + t)
    decreases t
  {
    assert done + t == done + [t[0]] + t[1..];
    match t[0] {
      case Literal(_) => f := FindFault(done + [t[0]], t[1..]);
      case AnyRun => f := FindAfterRun(done + [t[0]], t[1..]);
      case AnyOne =>
        if |t| == 1 || t[1].Literal? {
          f := Alone(done, t[1..]);
        } else {
          f := FindAfterOne(done, [], t[1..]);
        }
    }
  }

  lemma {:induction false} FindAfterRun(done: seq<Token<char>>, t: seq<Token<char>>) returns (f: Fault)
    requires !LooseAfterRun(t)
    ensures Shows(f, done + t)
    decreases t
  {
    assert done + t == done + [t[0]] + t[1..];
    match t[0] {
      case Literal(_) => f := FindFault(done + [t[0]], t[1..]);
      case AnyRun => f := FindAfterRun(done + [t[0]], t[1..]);
      case AnyOne =>
        assert done + [AnyOne] + [] + t[1..] == done + t;
        f := FindAfterOne(done, [], t[1..]);
    }
  }

  lemma {:induction false} FindAfterOne(p: seq<Token<char>>, between: seq<Token<char>>, t: seq<Token<char>>) returns (f: Fault)
    requires !LooseAfterOne(t) && Runs(between)
    ensures Shows(f, p + [AnyOne] + between + t)
    decreases t
  {
    var done := p + [AnyOne] + between;
    assert done + t == done + [t[0]] + t[1..];
    match t[0] {
      case Literal(_) => f := FindFault(done + [t[0]], t[1..]);
      case AnyRun =>
        assert done + [t[0]] == p + [AnyOne] + (between + [t[0]]);
        f := FindAfterOne(p, between + [t[0]], t[1..]);
      case AnyOne => f := Two(p, between, t[1..]);
    }
  }

  /** On this value the client and SQL part. */
  function Witness(f: Fault): string {
    Fill(f.p, 'x') + [FACE] + Fill(f.s, 'x')
  }

  lemma WitnessUnits(f: Fault)
    ensures Units(Witness(f)) ==
            Fill(Spelled(f.p), X) + ([UnitsOf(FACE)[0]] + ([LowOf(FACE)] + Fill(Spelled(f.s), X)))
  {
    var p, s := Fill(f.p, 'x'), Fill(f.s, 'x');
    assert Witness(f) == p + ([FACE] + s);
    UnitsAppend(p, [FACE] + s);
    FaceFirst(s);
    FillSpelled(f.p);
    FillSpelled(f.s);
  }

  lemma FaceFirst(s: string)
    ensures Units([FACE] + s) == [UnitsOf(FACE)[0]] + ([LowOf(FACE)] + Units(s))
  {
    assert ([FACE] + s)[1..] == s;
    assert UnitsOf(FACE) == [UnitsOf(FACE)[0], LowOf(FACE)];
  }

  /** Two underscores take the two halves of one character. */
  lemma TwoParts(f: Fault, t: seq<Token<char>>)
    requires f.Two? && Shows(f, t)
    ensures OnUnits(t, Witness(f)) && !MatchTokens(t, Witness(f))
  {
    TwoMatch(f);
    TwoSpelled(f);
    WitnessUnits(f);
    TwoTooLong(f);
  }

  lemma TwoTooLong(f: Fault)
    requires f.Two?
    ensures !MatchTokens(f.p + [AnyOne] + f.between + [AnyOne] + f.s, Witness(f))
  {
    var t := f.p + [AnyOne] + f.between + [AnyOne] + f.s;
    if MatchTokens(t, Witness(f)) {
      FillIsShortest(t, 'x', Witness(f));
      TwoFill(f);
    }
  }

  lemma TwoMatch(f: Fault)
    requires f.Two? && Runs(f.between)
    ensures MatchTokens(Spelled(f.p) + ([AnyOne] + (Spelled(f.between) + ([AnyOne] + Spelled(f.s)))),
                        Fill(Spelled(f.p), X) + ([UnitsOf(FACE)[0]] + ([LowOf(FACE)] + Fill(Spelled(f.s), X))))
  {
    var s := Spelled(f.s);
    var v := Fill(s, X);
    FillMatches(s, X, [], []);
    assert s + [] == s && v + [] == v;
    MatchOne(s, LowOf(FACE), v);
    FillMatches(Spelled(f.between), X, [AnyOne] + s, [LowOf(FACE)] + v);
    RunsFill(f.between);
    FillSpelled(f.between);
    assert [] + ([LowOf(FACE)] + v) == [LowOf(FACE)] + v;
    MatchOne(Spelled(f.between) + ([AnyOne] + s), UnitsOf(FACE)[0], [LowOf(FACE)] + v);
    FillMatches(Spelled(f.p), X, [AnyOne] + (Spelled(f.between) + ([AnyOne] + s)), [UnitsOf(FACE)[0]] + ([LowOf(FACE)] + v));
  }

  lemma MatchOne(t: seq<Token<nat>>, u: nat, v: seq<nat>)
    requires MatchTokens(t, v)
    ensures MatchTokens([AnyOne] + t, [u] + v)
  {
    assert ([AnyOne] + t)[1..] == t && ([u] + v)[1..] == v;
  }

  lemma SpelledOneMore(t: seq<Token<char>>)
    ensures Spelled([AnyOne] + t) == [AnyOne] + Spelled(t)
  {
    assert ([AnyOne] + t)[1..] == t;
  }

  lemma TwoSpelled(f: Fault)
    requires f.Two?
    ensures Spelled(f.p + [AnyOne] + f.between + [AnyOne] + f.s) ==
            Spelled(f.p) + ([AnyOne] + (Spelled(f.between) + ([AnyOne] + Spelled(f.s))))
  {
    var tail := f.between + ([AnyOne] + f.s);
    Assoc(f.p + [AnyOne] + f.between, [AnyOne], f.s);
    Assoc(f.p + [AnyOne], f.between, [AnyOne] + f.s);
    Assoc(f.p, [AnyOne], tail);
    SpelledAppend(f.p, [AnyOne] + tail);
    SpelledOneMore(tail);
    SpelledAppend(f.between, [AnyOne] + f.s);
    SpelledOneMore(f.s);
  }

  lemma TwoFill(f: Fault)
    requires f.Two?
    ensures |Fill(f.p + [AnyOne] + f.between + [AnyOne] + f.s, 'x')| >= |Fill(f.p, 'x')| + 2 + |Fill(f.s, 'x')|
  {
    FillAppend(f.p + [AnyOne] + f.between + [AnyOne], f.s, 'x');
    FillAppend(f.p + [AnyOne] + f.between, [AnyOne], 'x');
    FillAppend(f.p + [AnyOne], f.between, 'x');
    FillAppend(f.p, [AnyOne], 'x');
    var one: seq<Token<char>> := [AnyOne];
    assert one[1..] == [];
  }

  /** An underscore alone between literals does not match a character of two units. */
  lemma AloneParts(f: Fault, t: seq<Token<char>>)
    requires f.Alone? && Shows(f, t)
    ensures MatchTokens(t, Witness(f)) && !OnUnits(t, Witness(f))
  {
    AloneMatches(f);
    AloneRefuted(f);
  }

  lemma AloneMatches(f: Fault)
    requires f.Alone?
    ensures MatchTokens(f.p + [AnyOne] + f.s, Witness(f))
  {
    FillMatches(f.s, 'x', [], "");
    assert f.s + [] == f.s && Fill(f.s, 'x') + "" == Fill(f.s, 'x');
    assert ([AnyOne] + f.s)[1..] == f.s && ([FACE] + Fill(f.s, 'x'))[1..] == Fill(f.s, 'x');
    FillMatches(f.p, 'x', [AnyOne] + f.s, [FACE] + Fill(f.s, 'x'));
    assert f.p + [AnyOne] + f.s == f.p + ([AnyOne] + f.s);
    assert Witness(f) == Fill(f.p, 'x') + ([FACE] + Fill(f.s, 'x'));
  }

  lemma AloneRefuted(f: Fault)
    requires f.Alone? && (f.p == [] || f.p[|f.p| - 1].Literal?) && (f.s == [] || f.s[0].Literal?)
    ensures !OnUnits(f.p + [AnyOne] + f.s, Witness(f))
  {
    var p, s, w := Spelled(f.p), Spelled(f.s), Units(Witness(f));
    WitnessUnits(f);
    Assoc(f.p, [AnyOne], f.s);
    SpelledAppend(f.p, [AnyOne] + f.s);
    SpelledOneMore(f.s);
    if MatchTokens(p + ([AnyOne] + s), w) {
      var k := Split(p, [AnyOne] + s, w);
      assert ([AnyOne] + s)[1..] == s;
      FillIsShortest(p, X, w[..k]);
      FillIsShortest(s, X, w[k..][1..]);
      UnitsOfMeans(FACE);
      TwoCuts(Fill(p, X), UnitsOf(FACE)[0], LowOf(FACE), Fill(s, X), w, k);
      StartsWithLiteral(f.s, w[k..][1..]);
      EndsWithLiteral(f.p, w[..k]);
    }
  }

  /** One unit taken out leaves the other of the two at the end of what is before or at the start
      of what is after. */
  lemma TwoCuts(a: seq<nat>, high: nat, low: nat, b: seq<nat>, w: seq<nat>, k: nat)
    requires w == a + ([high] + ([low] + b)) && k < |w| && |a| <= k && |b| <= |w| - k - 1
    ensures (w[k..][1..] != [] && w[k..][1..][0] == low) || (k > 0 && w[..k][k - 1] == high)
  {
    assert w[|a|] == high && w[|a| + 1] == low;
  }

  lemma StartsWithLiteral(t: seq<Token<char>>, units: seq<nat>)
    requires (t == [] || t[0].Literal?) && MatchTokens(Spelled(t), units)
    ensures units == [] || !Low(units[0])
  {
    if t != [] {
      SpelledLiteral(t);
      UnitsOfMeans(t[0].c);
    }
  }

  lemma EndsWithLiteral(t: seq<Token<char>>, units: seq<nat>)
    requires (t == [] || t[|t| - 1].Literal?) && MatchTokens(Spelled(t), units)
    ensures units == [] || !High(units[|units| - 1])
  {
    if t != [] {
      var n := |t| - 1;
      var c := t[n].c;
      assert t == t[..n] + [t[n]];
      SpelledAppend(t[..n], [t[n]]);
      var k := Split(Spelled(t[..n]), Spelled([t[n]]), units);
      assert [t[n]][1..] == [];
      assert Spelled([t[n]]) == Literals(UnitsOf(c)) + [];
      LiteralsMatch(UnitsOf(c), [], units[k..]);
      UnitsOfMeans(c);
      var tail := units[k..];
      assert tail[|tail| - 1] == units[|units| - 1];
    }
  }

  /** The client's compiled expression answers as LIKE does on every value exactly when its tokens
      are loose. */
  lemma LooseExactlyWhen(t: seq<Token<char>>)
    ensures Loose(t) <==> forall v :: OnUnits(t, v) <==> MatchTokens(t, v)
  {
    if Loose(t) {
      forall v ensures OnUnits(t, v) <==> MatchTokens(t, v) { LooseAlike(t, v); }
    } else {
      var f := FindFault([], t);
      assert [] + t == t;
      if f.Two? { TwoParts(f, t); } else { AloneParts(f, t); }
    }
  }

  /** The client's `like` answers as SQL does on every value exactly when the pattern holds a
      special character, is not dangling, and has no underscore between two literals but with a
      percent sign and without another underscore. */
  lemma ClientLikeIsLikeExactlyWhen(pattern: string)
    ensures (forall value :: SqlLike(pattern, value) == Some(ClientLike(pattern, value))) <==>
            HasSpecial(pattern) && !Dangling(pattern) && Loose(Tokens(pattern, false))
  {
    if HasSpecial(pattern) {
      LooseExactlyWhen(Tokens(pattern, false));
      forall value ensures ClientLike(pattern, value) == Like(pattern, value) <==>
                           (OnUnits(Tokens(pattern, false), value) <==> MatchTokens(Tokens(pattern, false), value)) {
        CompiledPatternIsLike(pattern, value);
      }
      assert Dangling(pattern) ==> SqlLike(pattern, "").None?;
      assert !Dangling(pattern) ==> forall value :: SqlLike(pattern, value) == Some(ClientLike(pattern, value)) <==>
                                                    (ClientLike(pattern, value) == Like(pattern, value));
    } else {
      assert pattern <= (pattern + "x")[0..];
      PlainIsFound(pattern, pattern + "x");
      LikePlain(pattern, pattern + "x");
    }
  }

  lemma PlainIsFound(pattern: string, value: string)
    requires !HasSpecial(pattern) && exists k :: 0 <= k <= |value| && pattern <= value[k..]
    ensures ClientLike(pattern, value)
  {
    UnitsMatch(Contains, pattern, value);
  }

  /** On values without characters beyond the basic plane the first two conditions suffice. */
  lemma ClientLikeOnPlainValues(pattern: string, value: string)
    requires HasSpecial(pattern) && !Dangling(pattern) && forall c :: c in value ==> !Astral(c)
    ensures SqlLike(pattern, value) == Some(ClientLike(pattern, value))
  {
    CompiledPatternIsLike(pattern, value);
    PlainAlike(Tokens(pattern, false), value);
  }

  /** A plain pattern inside a longer value is found by the client, not by SQL; one underscore
      matches a character of two units for SQL, not for the client. */
  lemma ClientLikeDiffers()
    ensures ClientLike("b", "abc") && !Like("b", "abc")
    ensures !ClientLike("_", [FACE]) && Like("_", [FACE])
  {
    assert "b" <= "abc"[1..];
    PlainIsFound("b", "abc");
    assert Special("_"[0]);
    assert "_"[1..] == "" && [FACE][1..] == "";
    var t := Tokens("_", false);
    assert t == [AnyOne];
    AloneParts(Alone([], []), t);
    assert Witness(Alone([], [])) == [FACE];
  }
}

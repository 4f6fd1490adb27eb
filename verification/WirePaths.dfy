/** Which wire paths a compiled comparison can use: exactly the proper ones. Through any other
    path the condition language reads a Boolean operator, or a comparison further up. */
module WirePaths {
  import opened Common
  import opened FilterLanguage
  import opened WireConditions

  const LEAF := Single("_eq", Null)

  /** Two truth assignments that read shorter paths alike. */
  ghost predicate AlikeBelow(t: Truth, u: Truth, n: nat) {
    t.sure == u.sure && forall path, op, v, sure :: |path| < n ==> t.holds((path, op, v), sure) == u.holds((path, op, v), sure)
  }

  function Inner(segments: seq<string>): Json {
    if segments == [] then LEAF else Nested(segments, LEAF)
  }

  lemma InnerUnfolds(segments: seq<string>)
    requires segments != []
    ensures Inner(segments) == Single(segments[0], Inner(segments[1..]))
  {
    if |segments| == 1 { assert segments[1..] == []; }
  }

  lemma {:induction false} LongerPrefix(p: string, q: string, segments: seq<string>)
    requires |p| <= |q|
    ensures |ExtendAll(p, segments)| <= |ExtendAll(q, segments)|
    ensures |p| < |q| ==> |ExtendAll(p, segments)| < |ExtendAll(q, segments)|
    decreases |segments|
  {
    if segments != [] { LongerPrefix(Extend(p, segments[0]), Extend(q, segments[0]), segments[1..]); }
  }

  lemma {:induction false} PathGrows(path: string, segments: seq<string>)
    ensures |path| <= |ExtendAll(path, segments)|
    decreases |segments|
  {
    if segments != [] { PathGrows(Extend(path, segments[0]), segments[1..]); }
  }

  lemma LeafMeans(path: string, t: Truth)
    ensures Meaning(LEAF, path, t) <==> path != "" && Is(t, (path, "_eq", Null))
  {
    SingleMeans("_eq", Null, path, t);
  }

  /** A nested comparison consults no path longer than the one it spells. */
  lemma {:induction false} ConsultsShorter(path: string, segments: seq<string>, n: nat, t: Truth, u: Truth)
    requires AlikeBelow(t, u, n) && |ExtendAll(path, segments)| < n
    ensures Meaning(Inner(segments), path, t) == Meaning(Inner(segments), path, u)
    decreases |segments|
  {
    PathGrows(path, segments);
    if segments == [] {
      LeafMeans(path, t);
      LeafMeans(path, u);
    } else {
      var head, rest := segments[0], segments[1..];
      InnerUnfolds(segments);
      SingleMeans(head, Inner(rest), path, t);
      SingleMeans(head, Inner(rest), path, u);
      LongerPrefix(path, Extend(path, head), rest);
      if head == "_not" {
        ConsultsShorter(path, rest, n, Opposite(t), Opposite(u));
      } else if head !in BOOLEAN_KEYS && !(head in WIRE_KEYS && path != "") {
        ConsultsShorter(Extend(path, head), rest, n, t, u);
      }
    }
  }

  /** Through an improper path the condition never consults the path it was compiled for. */
  lemma {:induction false} ImproperConsultsShorter(path: string, segments: seq<string>, n: nat, t: Truth, u: Truth)
    requires AlikeBelow(t, u, n) && |ExtendAll(path, segments)| <= n && !ProperSegments(path, segments)
    ensures Meaning(Inner(segments), path, t) == Meaning(Inner(segments), path, u)
    decreases |segments|
  {
    var head, rest := segments[0], segments[1..];
    InnerUnfolds(segments);
    SingleMeans(head, Inner(rest), path, t);
    SingleMeans(head, Inner(rest), path, u);
    LongerPrefix(path, Extend(path, head), rest);
    if head == "_not" {
      ConsultsShorter(path, rest, n, Opposite(t), Opposite(u));
    } else if head in WIRE_KEYS && path != "" {
      PathGrows(Extend(path, head), rest);
    } else if head !in BOOLEAN_KEYS {
      ImproperConsultsShorter(Extend(path, head), rest, n, t, u);
    }
  }

  lemma {:induction false} JoinedLonger(segments: seq<string>)
    requires segments != []
    ensures |ExtendAll("", segments)| <= |Joined(segments)|
    ensures segments[0] == "" && |segments| > 1 ==> |ExtendAll("", segments)| < |Joined(segments)|
    decreases |segments|
  {
    if segments[0] != "" {
      ExtendAllJoins("", segments);
    } else if |segments| > 1 {
      assert Extend("", "") == "";
      JoinedLonger(segments[1..]);
    } else {
      assert segments[1..] == [];
    }
  }

  /** A path that starts with a dot, or is empty, loses its first segment. */
  lemma HeadlessConsultsShorter(wire: string, t: Truth, u: Truth)
    requires AlikeBelow(t, u, |wire|) && Split(wire)[0] == ""
    ensures Meaning(Inner(Split(wire)), "", t) == Meaning(Inner(Split(wire)), "", u)
  {
    var segments := Split(wire);
    SplitJoined(wire);
    if |segments| == 1 {
      assert segments == [""] && segments[1..] == [];
      InnerUnfolds(segments);
      SingleMeans("", LEAF, "", t);
      SingleMeans("", LEAF, "", u);
      LeafMeans("", t);
      LeafMeans("", u);
    } else {
      JoinedLonger(segments);
      ConsultsShorter("", segments, |wire|, t, u);
    }
  }

  /** A field's comparisons are compiled to conditions that mean them exactly when its wire path
      is proper. */
  lemma PathMeansItselfExactlyWhen(field: Field)
    ensures (forall test, t :: Meaning(TestCondition(field, test), "", t) <==> Is(AsSent(t), (field, test.op, test.operand)))
            <==> ProperPath(field.wire)
  {
    if ProperPath(field.wire) {
      forall test, t ensures Meaning(TestCondition(field, test), "", t) <==> Is(AsSent(t), (field, test.op, test.operand)) {
        TestMeans(field, test, t);
      }
    } else {
      ImproperPathMisleads(field);
    }
  }

  lemma ImproperPathMisleads(field: Field)
    requires !ProperPath(field.wire)
    ensures exists test, t :: !(Meaning(TestCondition(field, test), "", t) <==> Is(AsSent(t), (field, test.op, test.operand)))
  {
    var wire, segments := field.wire, Split(field.wire);
    var test := Test(Exact, Null);
    var t: Truth := Truths((a: (string, string, Json), sure: bool) => true, true);
    var u: Truth := Truths((a: (string, string, Json), sure: bool) => |a.0| < |wire|, true);
    assert TestCondition(field, test) == Inner(segments);
    if segments[0] == "" {
      HeadlessConsultsShorter(wire, t, u);
    } else {
      SplitJoined(wire);
      ExtendAllJoins("", segments);
      ImproperConsultsShorter("", segments, |wire|, t, u);
    }
    assert Is(AsSent(t), (field, Exact, Null)) && !Is(AsSent(u), (field, Exact, Null));
    if Meaning(TestCondition(field, test), "", t) {
      assert !(Meaning(TestCondition(field, test), "", u) <==> Is(AsSent(u), (field, test.op, test.operand)));
    } else {
      assert !(Meaning(TestCondition(field, test), "", t) <==> Is(AsSent(t), (field, test.op, test.operand)));
    }
  }
}

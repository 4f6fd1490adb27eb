/** A turn's stored updates projected to protocol notifications, the snapshot form of a
    projected prefix, and the client that receives either. */
module AcpProjection {

  /** Kinds of updates that name no part. */
  type OtherKind = kind: string |
    kind != "agent_message_chunk" && kind != "agent_thought_chunk" && kind != "tool_call" && kind != "tool_call_update"
    witness "plan"

  /** Stored updates, in the shape they were emitted. */
  datatype Update =
    | MessageChunk(text: string)
    | ThoughtChunk(text: string)
    | ToolCall(id: string, fields: map<string, string>)
    | ToolCallUpdate(id: string, fields: map<string, string>)
    | OtherUpdate(kind: OtherKind)

  /** Identity of a part the client shows: a text segment by its first position, or a tool call. */
  datatype Part = Message(start: nat) | Thought(start: nat) | Tool(id: string)

  datatype Note =
    | Chunk(part: Part, text: string)
    | Whole(part: Part, text: string)
    | Fields(part: Part, fields: map<string, string>)
    | Passed(kind: string)

  /** The value of `sessionUpdate`. */
  function KindOf(u: Update): string {
    match u
    case MessageChunk(_) => "agent_message_chunk"
    case ThoughtChunk(_) => "agent_thought_chunk"
    case ToolCall(_, _) => "tool_call"
    case ToolCallUpdate(_, _) => "tool_call_update"
    case OtherUpdate(kind) => kind
  }

  /** The first position of the contiguous run of one kind that ends at `k`. */
  function Segment(updates: seq<Update>, k: nat): nat
    requires k < |updates|
  {
    if k == 0 || KindOf(updates[k]) != KindOf(updates[k - 1]) then k else Segment(updates, k - 1)
  }

  function Projected(u: Update, start: nat): Note {
    match u
    case MessageChunk(text) => Chunk(Message(start), text)
    case ThoughtChunk(text) => Chunk(Thought(start), text)
    case ToolCall(id, fields) => Fields(Tool(id), fields)
    case ToolCallUpdate(id, fields) => Fields(Tool(id), fields)
    case OtherUpdate(kind) => Passed(kind)
  }

  function Project(updates: seq<Update>): (r: seq<Note>)
    ensures |r| == |updates| && forall n :: n in r ==> Plain(n)
  {
    seq(|updates|, k requires 0 <= k < |updates| => Projected(updates[k], Segment(updates, k)))
  }

  // ---- What a part is -----------------------------------------------------------------------

  /** Two chunks of one kind of text. */
  predicate SameText(u: Update, v: Update) {
    (u.MessageChunk? && v.MessageChunk?) || (u.ThoughtChunk? && v.ThoughtChunk?)
  }

  /** From the `i`-th to the `j`-th update there is nothing but chunks of one kind of text. */
  predicate OneRun(updates: seq<Update>, i: nat, j: nat)
    requires j < |updates|
  {
    forall k :: i <= k <= j ==> SameText(updates[k], updates[j])
  }

  /** The run of text that holds the `j`-th update starts at `i`. */
  predicate RunStarts(updates: seq<Update>, i: nat, j: nat)
    requires j < |updates|
  {
    i <= j && OneRun(updates, i, j) && (i > 0 ==> !SameText(updates[i - 1], updates[j]))
  }

  /** What one update becomes: text goes to the part of its kind that starts where its run does, a
      tool's fields to the tool's own part, and anything else passes. */
  predicate Names(updates: seq<Update>, j: nat, note: Note)
    requires j < |updates|
  {
    match updates[j]
    case MessageChunk(text) => note.Chunk? && note.text == text && note.part.Message? && RunStarts(updates, note.part.start, j)
    case ThoughtChunk(text) => note.Chunk? && note.text == text && note.part.Thought? && RunStarts(updates, note.part.start, j)
    case ToolCall(id, fields) => note == Fields(Tool(id), fields)
    case ToolCallUpdate(id, fields) => note == Fields(Tool(id), fields)
    case OtherUpdate(kind) => note == Passed(kind)
  }

  lemma KindTells(u: Update, v: Update)
    requires v.MessageChunk? || v.ThoughtChunk?
    ensures KindOf(u) == KindOf(v) <==> SameText(u, v)
  {
  }

  lemma {:induction false} SegmentStartsRun(updates: seq<Update>, j: nat)
    requires j < |updates| && (updates[j].MessageChunk? || updates[j].ThoughtChunk?)
    ensures RunStarts(updates, Segment(updates, j), j)
  {
    if j > 0 {
      KindTells(updates[j - 1], updates[j]);
      if SameText(updates[j - 1], updates[j]) { SegmentStartsRun(updates, j - 1); }
    }
  }

  lemma ProjectedNames(updates: seq<Update>, j: nat)
    requires j < |updates|
    ensures Names(updates, j, Project(updates)[j])
  {
    if updates[j].MessageChunk? || updates[j].ThoughtChunk? { SegmentStartsRun(updates, j); }
  }

  /** Two pieces of text go to one part exactly when nothing but text of their kind lies from the
      one to the other. */
  lemma OnePartExactlyWhen(updates: seq<Update>, i: nat, j: nat, first: Note, second: Note)
    requires i < j < |updates| && Names(updates, i, first) && Names(updates, j, second)
    requires first.Chunk? && second.Chunk?
    ensures first.part == second.part <==> OneRun(updates, i, j)
  {
    if OneRun(updates, i, j) {
      var a, b := first.part.start, second.part.start;
      assert SameText(updates[i], updates[j]);
      assert OneRun(updates, a, j) && OneRun(updates, b, i);
      StartsFirst(updates, a, i, b);
      StartsFirst(updates, b, j, a);
    }
  }

  lemma StartsFirst(updates: seq<Update>, start: nat, j: nat, i: nat)
    requires j < |updates| && RunStarts(updates, start, j) && OneRun(updates, i, j)
    ensures start <= i
  {
    var before := if start > 0 then start - 1 else 0;
    assert i <= before <= j ==> SameText(updates[before], updates[j]);
  }

  /** The loop names each update as it should be, and computes the projection. */
  method ProjectUpdates(updates: seq<Update>) returns (notes: seq<Note>)
    ensures notes == Project(updates)
    ensures |notes| == |updates| && forall j :: 0 <= j < |updates| ==> Names(updates, j, notes[j])
  {
    notes := [];
    var segment := 0;
    for position := 0 to |updates|
      invariant |notes| == position
      invariant position > 0 ==> segment == Segment(updates, position - 1)
      invariant forall k {:trigger NoteAt(updates, notes, k)} :: 0 <= k < position ==> NoteAt(updates, notes, k)
    {
      if position == 0 || KindOf(updates[position]) != KindOf(updates[position - 1]) {
        segment := position;
      }
      assert segment == Segment(updates, position);
      var more := notes + [Projected(updates[position], segment)];
      forall k | 0 <= k <= position ensures NoteAt(updates, more, k) {
        if k < position { assert NoteAt(updates, notes, k); }
      }
      notes := more;
    }
    forall k | 0 <= k < |updates| ensures notes[k] == Project(updates)[k] { assert NoteAt(updates, notes, k); }
    forall j | 0 <= j < |updates| ensures Names(updates, j, notes[j]) { ProjectedNames(updates, j); }
  }

  predicate NoteAt(updates: seq<Update>, notes: seq<Note>, k: nat)
    requires k < |updates| && k < |notes|
  {
    notes[k] == Projected(updates[k], Segment(updates, k))
  }

  lemma {:induction false} SegmentStable(updates: seq<Update>, n: nat, k: nat)
    requires k < n <= |updates|
    ensures Segment(updates[..n], k) == Segment(updates, k)
  {
    if k > 0 { SegmentStable(updates, n, k - 1); }
  }

  /** Projecting a prefix is a prefix of the projection, so batching never renames a part. */
  lemma ProjectPrefix(updates: seq<Update>, n: nat)
    requires n <= |updates|
    ensures Project(updates[..n]) == Project(updates)[..n]
  {
    forall k | 0 <= k < n ensures Project(updates[..n])[k] == Project(updates)[k] {
      SegmentStable(updates, n, k);
    }
  }

  // ---- The client ------------------------------------------------------------------------

  /** Parts in order of first arrival, the text of each segment and the fields of each tool. */
  datatype Client = Client(order: seq<Part>, texts: map<Part, string>, tools: map<Part, map<string, string>>)

  const EMPTY := Client([], map[], map[])

  function Text(c: Client, p: Part): string {
    if p in c.texts then c.texts[p] else ""
  }

  function ToolFields(c: Client, p: Part): map<string, string> {
    if p in c.tools then c.tools[p] else map[]
  }

  function Arrived(order: seq<Part>, p: Part): seq<Part> {
    if p in order then order else order + [p]
  }

  function Receive(c: Client, n: Note): Client {
    match n
    case Chunk(p, text) => Client(Arrived(c.order, p), c.texts[p := Text(c, p) + text], c.tools)
    case Whole(p, text) => Client(Arrived(c.order, p), c.texts[p := text], c.tools)
    case Fields(p, fields) => Client(Arrived(c.order, p), c.texts, c.tools[p := ToolFields(c, p) + fields])
    case Passed(_) => c
  }

  function ReceiveAll(c: Client, notes: seq<Note>): Client {
    if notes == [] then c else Receive(ReceiveAll(c, notes[..|notes| - 1]), notes[|notes| - 1])
  }

  lemma {:induction false} ReceiveConcat(c: Client, a: seq<Note>, b: seq<Note>)
    ensures ReceiveAll(c, a + b) == ReceiveAll(ReceiveAll(c, a), b)
  {
    if b == [] {
      assert a + b == a;
    } else {
      var n := |b| - 1;
      assert (a + b)[..|a + b| - 1] == a + b[..n];
      ReceiveConcat(c, a, b[..n]);
    }
  }

  // ---- Snapshots ----------------------------------------------------------------------------

  function Find(notes: seq<Note>, p: Part): (r: int)
    requires forall n :: n in notes ==> !n.Passed?
    ensures -1 <= r < |notes|
    ensures r >= 0 ==> notes[r].part == p
    ensures r < 0 ==> forall i :: 0 <= i < |notes| ==> notes[i].part != p
  {
    if notes == [] then -1
    else if notes[|notes| - 1].part == p then |notes| - 1
    else Find(notes[..|notes| - 1], p)
  }

  /** The snapshot under construction: one whole message or tool call per part. */
  ghost predicate Upserts(notes: seq<Note>) {
    && (forall i :: 0 <= i < |notes| ==> notes[i].Whole? || notes[i].Fields?)
    && (forall i, j :: 0 <= i < j < |notes| ==> notes[i].part != notes[j].part)
    && (forall i :: 0 <= i < |notes| ==> (notes[i].part.Tool? <==> notes[i].Fields?))
  }

  /** One projected update upserted into the snapshot; other kinds are left out of it. */
  function Upsert(notes: seq<Note>, n: Note): (r: seq<Note>)
    requires Upserts(notes) && Plain(n)
    ensures Upserts(r)
  {
    match n
    case Chunk(p, text) =>
      var i := Find(notes, p);
      if i < 0 then notes + [Whole(p, text)]
      else if notes[i].Whole? then notes[i := Whole(p, notes[i].text + text)] else notes
    case Fields(p, fields) =>
      var i := Find(notes, p);
      if i < 0 then notes + [Fields(p, fields)]
      else if notes[i].Fields? then notes[i := Fields(p, notes[i].fields + fields)] else notes
    case _ => notes
  }

  /** What projection yields: text for segments, fields for tools. */
  predicate Plain(n: Note) {
    match n
    case Chunk(p, _) => !p.Tool?
    case Whole(_, _) => false
    case Fields(p, _) => p.Tool?
    case Passed(_) => true
  }

  ghost predicate AllPlain(notes: seq<Note>) {
    forall n :: n in notes ==> Plain(n)
  }

  function Snapshot(notes: seq<Note>): (r: seq<Note>)
    requires AllPlain(notes)
    ensures Upserts(r)
  {
    if notes == [] then [] else Upsert(Snapshot(notes[..|notes| - 1]), notes[|notes| - 1])
  }

  method SnapshotUpdates(notes: seq<Note>) returns (parts: seq<Note>)
    requires AllPlain(notes)
    ensures parts == Snapshot(notes)
  {
    parts := [];
    for k := 0 to |notes|
      invariant parts == Snapshot(notes[..k])
    {
      assert notes[..k + 1][..k] == notes[..k];
      parts := Upsert(parts, notes[k]);
    }
    assert notes[..|notes|] == notes;
  }

  // ---- A snapshot says what the stream said ------------------------------------------------------

  /** What a client holds after a snapshot, read off the snapshot itself. */
  ghost predicate Shows(c: Client, notes: seq<Note>)
    requires Upserts(notes)
  {
    && |c.order| == |notes| && (forall i :: 0 <= i < |notes| ==> c.order[i] == notes[i].part)
    && (forall p :: p in c.texts <==> p in c.order && !p.Tool?)
    && (forall p :: p in c.tools <==> p in c.order && p.Tool?)
    && (forall i :: 0 <= i < |notes| && notes[i].Whole? ==> c.texts[notes[i].part] == notes[i].text)
    && (forall i :: 0 <= i < |notes| && notes[i].Fields? ==> c.tools[notes[i].part] == notes[i].fields)
  }

  lemma ShowsDetermines(c: Client, d: Client, notes: seq<Note>)
    requires Upserts(notes) && Shows(c, notes) && Shows(d, notes)
    ensures c == d
  {
    assert c.order == d.order;
    assert c.texts == d.texts;
    assert c.tools == d.tools;
  }

  /** A new part at the end. */
  lemma AppendShows(c: Client, notes: seq<Note>, n: Note)
    requires Upserts(notes + [n]) && Upserts(notes) && Shows(c, notes)
    ensures Shows(Receive(c, n), notes + [n])
  {
    var all := notes + [n];
    assert all[|notes|] == n && forall i :: 0 <= i < |notes| ==> all[i] == notes[i];
    assert n.part !in c.order;
    assert n.Fields? ==> map[] + n.fields == n.fields;
  }

  lemma {:induction false} SnapshotShows(notes: seq<Note>)
    requires Upserts(notes)
    ensures Shows(ReceiveAll(EMPTY, notes), notes)
  {
    if notes != [] {
      var n := |notes| - 1;
      SnapshotShows(notes[..n]);
      assert notes[..n] + [notes[n]] == notes;
      AppendShows(ReceiveAll(EMPTY, notes[..n]), notes[..n], notes[n]);
    }
  }

  /** An update of a part already there. */
  lemma ReplaceShows(c: Client, notes: seq<Note>, i: nat, n: Note)
    requires Upserts(notes) && Shows(c, notes) && i < |notes| && !n.Passed? && n.part == notes[i].part
    requires (n.Chunk? && notes[i].Whole?) || (n.Fields? && notes[i].Fields?)
    ensures var u := if n.Chunk? then Whole(n.part, notes[i].text + n.text) else Fields(n.part, notes[i].fields + n.fields);
            Upserts(notes[i := u]) && Shows(Receive(c, n), notes[i := u])
  {
    var u := if n.Chunk? then Whole(n.part, notes[i].text + n.text) else Fields(n.part, notes[i].fields + n.fields);
    var all := notes[i := u];
    assert n.part in c.order by { assert c.order[i] == n.part; }
    assert forall j :: 0 <= j < |all| ==> all[j].part == notes[j].part && (j == i || all[j] == notes[j]);
  }

  lemma UpsertShows(c: Client, notes: seq<Note>, n: Note)
    requires Upserts(notes) && Shows(c, notes) && Plain(n)
    ensures Shows(Receive(c, n), Upsert(notes, n))
  {
    if !n.Passed? {
      var i := Find(notes, n.part);
      if i < 0 {
        var u := if n.Chunk? then Whole(n.part, n.text) else n;
        assert Upsert(notes, n) == notes + [u];
        AppendShows(c, notes, u);
        assert n.Chunk? ==> n.part !in c.texts && "" + n.text == n.text;
        assert Receive(c, n) == Receive(c, u);
      } else {
        ReplaceShows(c, notes, i, n);
      }
    }
  }

  lemma {:induction false} StreamShows(notes: seq<Note>)
    requires AllPlain(notes)
    ensures Shows(ReceiveAll(EMPTY, notes), Snapshot(notes))
  {
    if notes != [] {
      var n := |notes| - 1;
      StreamShows(notes[..n]);
      UpsertShows(ReceiveAll(EMPTY, notes[..n]), Snapshot(notes[..n]), notes[n]);
    }
  }

  lemma SnapshotIsStream(notes: seq<Note>)
    requires AllPlain(notes)
    ensures ReceiveAll(EMPTY, Snapshot(notes)) == ReceiveAll(EMPTY, notes)
  {
    StreamShows(notes);
    SnapshotShows(Snapshot(notes));
    ShowsDetermines(ReceiveAll(EMPTY, notes), ReceiveAll(EMPTY, Snapshot(notes)), Snapshot(notes));
  }

  lemma ProjectSplit(updates: seq<Update>, n: nat)
    requires n <= |updates|
    ensures Project(updates) == Project(updates[..n]) + Project(updates)[n..]
  {
    ProjectPrefix(updates, n);
  }

  lemma SnapshotForPrefix(notes: seq<Note>, prefix: seq<Note>, suffix: seq<Note>)
    requires notes == prefix + suffix && forall n :: n in prefix ==> Plain(n)
    ensures ReceiveAll(EMPTY, Snapshot(prefix) + suffix) == ReceiveAll(EMPTY, notes)
  {
    SnapshotIsStream(prefix);
    ReceiveConcat(EMPTY, Snapshot(prefix), suffix);
    ReceiveConcat(EMPTY, prefix, suffix);
  }

  /** A client given the snapshot of a prefix and then the live suffix ends with the same
      parts, texts, tool fields and order of first arrival as one that streamed everything. */
  lemma SnapshotAgreesWithStreaming(updates: seq<Update>, n: nat)
    requires n <= |updates|
    ensures ReceiveAll(EMPTY, Snapshot(Project(updates[..n])) + Project(updates)[n..]) ==
            ReceiveAll(EMPTY, Project(updates))
  {
    ProjectSplit(updates, n);
    SnapshotForPrefix(Project(updates), Project(updates[..n]), Project(updates)[n..]);
  }
}

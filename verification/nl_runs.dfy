/** Whole runs of the builder of src/nl.c: any well-bracketed sequence of its three calls. */
module NlRuns {
  import opened Nl
  import opened Options

  datatype Call =
    | Append(attr: nat, d: seq<Byte>)
    | Start(attr: nat)
    | End

  /** An attribute list still being filled: the type of its nest, and what it holds. */
  datatype Pending = Pending(kind: nat, kids: seq<Attr>)

  /** The brackets of a call sequence, read with a stack; None when an end has no start. */
  ghost function Replay(calls: seq<Call>, stack: seq<Pending>): Option<seq<Pending>>
    requires stack != []
    decreases |calls|
  {
    if calls == [] then Some(stack)
    else
      match calls[0]
      case Append(attr, d) => Replay(calls[1..], Push(stack, Leaf(attr % 65536, d)))
      case Start(attr) => Replay(calls[1..], stack + [Pending(attr % 65536, [])])
      case End =>
        if |stack| == 1 then None
        else Replay(calls[1..], Push(Init(stack), Nest(Top(stack).kind, [], Top(stack).kids)))
  }

  ghost function Push(stack: seq<Pending>, t: Attr): seq<Pending>
    requires stack != []
  {
    Init(stack) + [Top(stack).(kids := Top(stack).kids + [t])]
  }

  ghost predicate WellBracketed(calls: seq<Call>) {
    var r := Replay(calls, [Pending(0, [])]);
    r.Some? && |r.value| == 1
  }

  /** The attribute tree that a well-bracketed sequence spells out. */
  ghost function Tree(calls: seq<Call>): seq<Attr>
    requires WellBracketed(calls)
  {
    Replay(calls, [Pending(0, [])]).value[0].kids
  }

  function Room(calls: seq<Call>): nat {
    if calls == [] then 0 else
      Room(calls[1..]) +
      match calls[0]
      case Append(_, d) => Align4(SIZEOF_RTATTR + |d|)
      case Start(_) => SIZEOF_RTATTR
      case End => 0
  }

  // ---------------------------------------------------------------- trees as call sequences

  ghost function CallsOne(t: Attr): seq<Call>
    decreases t, 0
  {
    match t
    case Leaf(kind, payload) => [Append(kind, payload)]
    case Nest(kind, _, kids) => [Start(kind)] + Calls(kids) + [End]
  }

  ghost function Calls(ts: seq<Attr>): seq<Call>
    decreases ts, 1
  {
    if ts == [] then [] else CallsOne(ts[0]) + Calls(ts[1..])
  }

  /** Types fit their 16-bit field, and no nest has a structure in front. */
  ghost predicate Plain(ts: seq<Attr>)
    decreases ts, 1
  {
    forall i | 0 <= i < |ts| :: PlainOne(ts[i])
  }

  ghost predicate PlainOne(t: Attr)
    decreases t, 0
  {
    t.kind < 65536 && (t.Nest? ==> t.prefix == [] && Plain(t.kids))
  }

  ghost function PushAll(stack: seq<Pending>, ts: seq<Attr>): seq<Pending>
    requires stack != []
  {
    Init(stack) + [Top(stack).(kids := Top(stack).kids + ts)]
  }

  lemma {:induction false} PushAllNone(stack: seq<Pending>)
    requires stack != []
    ensures PushAll(stack, []) == stack
  {
    assert Top(stack).kids + [] == Top(stack).kids;
  }

  lemma {:induction false} PushThenAll(stack: seq<Pending>, t: Attr, ts: seq<Attr>)
    requires stack != []
    ensures PushAll(Push(stack, t), ts) == PushAll(stack, [t] + ts)
  {
    assert Init(Push(stack, t)) == Init(stack);
    assert Top(stack).kids + [t] + ts == Top(stack).kids + ([t] + ts);
  }

  lemma {:induction false} ReplayCalls(ts: seq<Attr>, rest: seq<Call>, stack: seq<Pending>)
    requires Plain(ts) && stack != []
    ensures Replay(Calls(ts) + rest, stack) == Replay(rest, PushAll(stack, ts))
    decreases ts, 1
  {
    if ts == [] {
      PushAllNone(stack);
      assert Calls(ts) + rest == rest;
    } else {
      var more := Calls(ts[1..]) + rest;
      assert Calls(ts) + rest == CallsOne(ts[0]) + more;
      ReplayCallsOne(ts[0], more, stack);
      ReplayCalls(ts[1..], rest, Push(stack, ts[0]));
      PushThenAll(stack, ts[0], ts[1..]);
      assert ts == [ts[0]] + ts[1..];
    }
  }

  lemma {:induction false} ReplayCallsOne(t: Attr, rest: seq<Call>, stack: seq<Pending>)
    requires PlainOne(t) && stack != []
    ensures Replay(CallsOne(t) + rest, stack) == Replay(rest, Push(stack, t))
    decreases t, 0
  {
    match t {
      case Leaf(kind, payload) =>
        ReplayFirst(Append(kind, payload), rest, stack);
      case Nest(kind, prefix, kids) =>
        ReplayCalls(kids, [End] + rest, stack + [Pending(kind, [])]);
        ReplayNest(kind, kids, rest, stack);
        assert CallsOne(t) + rest == [Start(kind)] + (Calls(kids) + ([End] + rest));
    }
  }

  lemma {:induction false} ReplayNest(kind: nat, kids: seq<Attr>, rest: seq<Call>, stack: seq<Pending>)
    requires stack != [] && kind < 65536
    requires var stack' := stack + [Pending(kind, [])];
             Replay(Calls(kids) + ([End] + rest), stack') == Replay([End] + rest, PushAll(stack', kids))
    ensures Replay([Start(kind)] + (Calls(kids) + ([End] + rest)), stack) ==
            Replay(rest, Push(stack, Nest(kind, [], kids)))
  {
    var full := stack + [Pending(kind, kids)];
    ReplayFirst(Start(kind), Calls(kids) + ([End] + rest), stack);
    assert [] + kids == kids;
    assert PushAll(stack + [Pending(kind, [])], kids) == full;
    assert Init(full) == stack && Top(full) == Pending(kind, kids);
    ReplayFirst(End, rest, full);
  }

  lemma {:induction false} ReplayFirst(call: Call, rest: seq<Call>, stack: seq<Pending>)
    requires stack != [] && (call.End? ==> |stack| > 1)
    ensures call.Append? ==>
              Replay([call] + rest, stack) == Replay(rest, Push(stack, Leaf(call.attr % 65536, call.d)))
    ensures call.Start? ==>
              Replay([call] + rest, stack) == Replay(rest, stack + [Pending(call.attr % 65536, [])])
    ensures call.End? ==>
              Replay([call] + rest, stack) ==
              Replay(rest, Push(Init(stack), Nest(Top(stack).kind, [], Top(stack).kids)))
  {
    assert ([call] + rest)[1..] == rest;
  }

  /** Every attribute tree is spelled out by a well-bracketed sequence of calls. */
  lemma {:induction false} TreeOfCalls(ts: seq<Attr>)
    requires Plain(ts)
    ensures WellBracketed(Calls(ts)) && Tree(Calls(ts)) == ts
  {
    var root := [Pending(0, [])];
    ReplayCalls(ts, [], root);
    assert Calls(ts) + [] == Calls(ts);
    assert [] + ts == ts;
    assert PushAll(root, ts) == [Pending(0, ts)];
  }

  // ---------------------------------------------------------------- running the calls

  ghost function Shape(open: seq<Frame>): seq<Pending> {
    seq(|open|, i requires 0 <= i < |open| => Pending(open[i].kind, open[i].kids))
  }

  /** The remembered places are those of the open nests, and no nest has a structure in front. */
  ghost predicate Tracks(nests: seq<nat>, open: seq<Frame>) {
    && |open| == |nests| + 1
    && (forall i | 0 <= i < |nests| :: nests[i] == open[i + 1].start)
    && (forall i | 0 <= i < |open| :: open[i].prefix == [])
  }

  lemma {:induction false} ShapeOfKid(open: seq<Frame>, t: Attr)
    requires open != []
    ensures Shape(WithKid(open, t)) == Push(Shape(open), t)
  {}

  lemma {:induction false} ShapeOfInit(open: seq<Frame>)
    requires open != []
    ensures Shape(Init(open)) == Init(Shape(open))
  {}

  lemma {:induction false} TracksKid(nests: seq<nat>, open: seq<Frame>, t: Attr)
    requires Tracks(nests, open)
    ensures Tracks(nests, WithKid(open, t))
  {}

  lemma {:induction false} TracksInit(nests: seq<nat>, open: seq<Frame>)
    requires Tracks(nests, open) && nests != []
    ensures Tracks(nests[..|nests| - 1], Init(open))
  {}

  /** Exactly the two bytes at `nest` have changed; they hold the distance to `len`. */
  ghost predicate Patched(b: seq<Byte>, b': seq<Byte>, nest: nat, len: nat) {
    nest + 2 <= len <= |b| && len - nest < 65536 && b' == b[nest := Low(len - nest)][nest + 1 := High(len - nest)]
  }

  /** The message is well-formed, the caller remembers its open nests, and there is room for what is to come. */
  ghost predicate InStep(m: NlMsg, nests: seq<nat>, calls: seq<Call>)
    reads m, m.buf
  {
    m.Valid() && Tracks(nests, m.open) && m.len + Room(calls) <= m.buf.Length
  }

  lemma {:induction false} RoomFirst(call: Call, rest: seq<Call>)
    ensures Room([call] + rest) ==
            Room(rest) +
            if call.Append? then Align4(SIZEOF_RTATTR + |call.d|) else if call.Start? then SIZEOF_RTATTR else 0
  {
    assert ([call] + rest)[1..] == rest;
  }

  lemma {:induction false} AppendShape(attr: nat, d: seq<Byte>, rest: seq<Call>, nests: seq<nat>, open: seq<Frame>)
    requires Tracks(nests, open)
    ensures var open' := WithKid(open, Leaf(attr % 65536, d));
            Tracks(nests, open') && Replay([Append(attr, d)] + rest, Shape(open)) == Replay(rest, Shape(open'))
  {
    ReplayFirst(Append(attr, d), rest, Shape(open));
    ShapeOfKid(open, Leaf(attr % 65536, d));
    TracksKid(nests, open, Leaf(attr % 65536, d));
  }

  lemma {:induction false} StartShape(attr: nat, nest: nat, rest: seq<Call>, nests: seq<nat>, open: seq<Frame>)
    requires Tracks(nests, open)
    ensures var open' := open + [Frame(nest, attr % 65536, [], [])];
            && Tracks(nests + [nest], open')
            && Replay([Start(attr)] + rest, Shape(open)) == Replay(rest, Shape(open'))
  {
    ReplayFirst(Start(attr), rest, Shape(open));
    assert Shape(open + [Frame(nest, attr % 65536, [], [])]) == Shape(open) + [Pending(attr % 65536, [])];
  }

  lemma {:induction false} EndShape(rest: seq<Call>, nests: seq<nat>, open: seq<Frame>)
    requires Tracks(nests, open) && Replay([End] + rest, Shape(open)).Some?
    ensures |open| > 1 && nests[|nests| - 1] == Top(open).start
    ensures var open' := WithKid(Init(open), Nest(Top(open).kind, Top(open).prefix, Top(open).kids));
            && Tracks(nests[..|nests| - 1], open')
            && Replay([End] + rest, Shape(open)) == Replay(rest, Shape(open'))
  {
    ReplayFirst(End, rest, Shape(open));
    ShapeOfInit(open);
    TracksInit(nests, open);
    ShapeOfKid(Init(open), Nest(Top(open).kind, [], Top(open).kids));
    TracksKid(nests[..|nests| - 1], Init(open), Nest(Top(open).kind, [], Top(open).kids));
  }

  /** One call; `nests` is the caller's stack of values returned by rtattr_start_nested. */
  method Perform(m: NlMsg, call: Call, nests: seq<nat>, ghost rest: seq<Call>) returns (nests': seq<nat>)
    requires InStep(m, nests, [call] + rest) && Replay([call] + rest, Shape(m.open)).Some?
    modifies m, m.buf
    ensures InStep(m, nests', rest)
    ensures Replay(rest, Shape(m.open)) == Replay([call] + rest, old(Shape(m.open)))
    ensures !call.End? ==> m.buf[..old(m.len)] == old(m.buf[..m.len])
    ensures call.End? ==>
              nests != [] && m.len == old(m.len) && Patched(old(m.buf[..]), m.buf[..], nests[|nests| - 1], m.len)
  {
    RoomFirst(call, rest);
    match call {
      case Append(attr, d) =>
        AppendShape(attr, d, rest, nests, m.open);
        m.Append(attr, d);
        nests' := nests;
      case Start(attr) =>
        nests' := PerformStart(m, attr, nests, rest);
      case End =>
        nests' := PerformEnd(m, nests, rest);
    }
  }

  method PerformStart(m: NlMsg, attr: nat, nests: seq<nat>, ghost rest: seq<Call>) returns (nests': seq<nat>)
    requires m.Valid() && Tracks(nests, m.open) && m.len + SIZEOF_RTATTR + Room(rest) <= m.buf.Length
    modifies m, m.buf
    ensures InStep(m, nests', rest)
    ensures Replay(rest, Shape(m.open)) == Replay([Start(attr)] + rest, old(Shape(m.open)))
    ensures m.buf[..old(m.len)] == old(m.buf[..m.len])
  {
    ghost var open := m.open;
    var nest := m.StartNested(attr);
    StartShape(attr, nest, rest, nests, open);
    nests' := nests + [nest];
  }

  method PerformEnd(m: NlMsg, nests: seq<nat>, ghost rest: seq<Call>) returns (nests': seq<nat>)
    requires InStep(m, nests, rest) && Replay([End] + rest, Shape(m.open)).Some?
    modifies m, m.buf
    ensures InStep(m, nests', rest) && nests != [] && m.len == old(m.len)
    ensures Replay(rest, Shape(m.open)) == Replay([End] + rest, old(Shape(m.open)))
    ensures Patched(old(m.buf[..]), m.buf[..], nests[|nests| - 1], m.len)
  {
    EndShape(rest, nests, m.open);
    m.EndNested(nests[|nests| - 1]);
    nests' := nests[..|nests| - 1];
  }

  /** Any well-bracketed run that fits the buffer: the walk reads back the tree the calls spell out. */
  method Run(calls: seq<Call>, ghost schema: Schema) returns (m: NlMsg)
    requires WellBracketed(calls) && BASE + Room(calls) <= NLMSG_GOOD_SIZE
    requires Conforms(Tree(calls), schema)
    ensures fresh(m) && m.Valid() && BASE <= m.len <= m.buf.Length && m.len % 4 == 0
    ensures Decode(m.buf[BASE..m.len], schema) == Some(Tree(calls))
  {
    m := new NlMsg();
    var nests: seq<nat> := [];
    var i := 0;
    assert Shape(m.open) == [Pending(0, [])] && calls[0..] == calls;
    while i < |calls|
      invariant 0 <= i <= |calls| && InStep(m, nests, calls[i..]) && fresh(m) && fresh(m.buf)
      invariant Replay(calls[i..], Shape(m.open)) == Replay(calls, [Pending(0, [])])
    {
      assert calls[i..] == [calls[i]] + calls[i + 1..];
      nests := Perform(m, calls[i], nests, calls[i + 1..]);
      i := i + 1;
    }
    assert calls[i..] == [];
    assert Shape(m.open)[0] == Pending(0, Tree(calls));
    assert m.open == [Root(Tree(calls))];
    m.Decodes(Tree(calls), schema);
    LayoutAligned(m.buf[..m.len], m.open);
  }
}

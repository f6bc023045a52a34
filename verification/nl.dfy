/** The netlink attribute builder of src/nl.c. Offsets count from the start of the message;
    integers are stored in the byte order of a little-endian host. */
module Nl {
  import opened Options

  type Byte = x: int | 0 <= x < 256

  const SIZEOF_NLMSG: nat := 36
  const NLMSG_GOOD_SIZE: nat := SIZEOF_NLMSG * 256
  const SIZEOF_RTATTR: nat := 4

  /** NLMSG_LENGTH(sizeof(struct ifinfomsg)): where the attributes begin. */
  const BASE: nat := 32

  /** NLMSG_ALIGN and RTA_ALIGN */
  function Align4(n: nat): (r: nat)
    ensures n <= r < n + 4 && r % 4 == 0
    ensures n % 4 == 0 ==> r == n
  {
    (n + 3) / 4 * 4
  }

  function Low(v: nat): Byte { v % 256 }

  lemma {:induction false} SplitsIn16(v: nat)
    requires v < 65536
    ensures Low(v) as nat + 256 * (High(v) as nat) == v
  {}

  function High(v: nat): Byte { v / 256 % 256 }

  ghost function Get16(b: seq<Byte>, at: nat): nat
    requires at + 2 <= |b|
  {
    (b[at] as nat) + 256 * (b[at + 1] as nat)
  }

  // ---------------------------------------------------------------- attribute trees

  /** What a receiver is meant to see. A nest may carry a fixed structure in front of its attributes. */
  datatype Attr =
    | Leaf(kind: nat, payload: seq<Byte>)
    | Nest(kind: nat, prefix: seq<Byte>, kids: seq<Attr>)

  ghost function Size(t: Attr): nat {
    match t
    case Leaf(_, payload) => Align4(SIZEOF_RTATTR + |payload|)
    case Nest(_, prefix, kids) => SIZEOF_RTATTR + |prefix| + SizeAll(kids)
  }

  ghost function SizeAll(ts: seq<Attr>): nat {
    if ts == [] then 0 else Size(ts[0]) + SizeAll(ts[1..])
  }

  /** `b` is the attribute `t` in wire form. Padding bytes may be anything. */
  ghost predicate EncodesOne(b: seq<Byte>, t: Attr)
    decreases t, 0
  {
    && |b| == Size(t) >= SIZEOF_RTATTR && |b| % 4 == 0 && Get16(b, 2) == t.kind
    && match t
       case Leaf(_, payload) =>
         && Get16(b, 0) == SIZEOF_RTATTR + |payload|
         && b[SIZEOF_RTATTR..SIZEOF_RTATTR + |payload|] == payload
       case Nest(_, prefix, kids) =>
         && Get16(b, 0) == |b|
         && b[SIZEOF_RTATTR..SIZEOF_RTATTR + |prefix|] == prefix
         && Encodes(b[SIZEOF_RTATTR + |prefix|..], kids)
  }

  ghost predicate Encodes(b: seq<Byte>, ts: seq<Attr>)
    decreases ts, 1
  {
    if ts == [] then b == [] else
      && Size(ts[0]) <= |b|
      && EncodesOne(b[..Size(ts[0])], ts[0])
      && Encodes(b[Size(ts[0])..], ts[1..])
  }

  lemma {:induction false} EncodesCons(x: seq<Byte>, t: Attr, y: seq<Byte>, ts: seq<Attr>)
    requires EncodesOne(x, t) && Encodes(y, ts)
    ensures Encodes(x + y, [t] + ts)
  {
    assert (x + y)[..|x|] == x && (x + y)[|x|..] == y;
    assert ([t] + ts)[1..] == ts;
  }

  lemma {:induction false} EncodesAppend(a: seq<Byte>, ts: seq<Attr>, b: seq<Byte>, t: Attr)
    requires Encodes(a, ts) && EncodesOne(b, t)
    ensures Encodes(a + b, ts + [t])
    decreases |ts|
  {
    if ts == [] {
      EncodesCons(b, t, [], []);
      assert b + [] == b == a + b && [t] + [] == [t] == ts + [t];
    } else {
      var n := Size(ts[0]);
      EncodesAppend(a[n..], ts[1..], b, t);
      EncodesCons(a[..n], ts[0], a[n..] + b, ts[1..] + [t]);
      assert a + b == a[..n] + (a[n..] + b);
      assert ts + [t] == [ts[0]] + (ts[1..] + [t]);
    }
  }

  lemma {:induction false} EncodesSize(b: seq<Byte>, ts: seq<Attr>)
    requires Encodes(b, ts)
    ensures |b| == SizeAll(ts) && |b| % 4 == 0
    decreases |ts|
  {
    if ts != [] {
      FirstSize(b, ts[0], ts[1..]);
      EncodesSize(b[Size(ts[0])..], ts[1..]);
    }
  }

  lemma {:induction false} FirstSize(b: seq<Byte>, t: Attr, rest: seq<Attr>)
    requires Size(t) <= |b| && EncodesOne(b[..Size(t)], t)
    ensures Size(t) % 4 == 0 && |b| == Size(t) + |b[Size(t)..]|
  {}

  // ---------------------------------------------------------------- the receiver

  /** Which attribute types the receiver treats as nests, and how long the structure in front of them is. */
  datatype Schema = Schema(prefix: nat, nested: map<nat, Schema>)

  /** The attribute walk of RTA_OK and RTA_NEXT. It fails when bytes are left over that are not an attribute. */
  ghost function Decode(b: seq<Byte>, schema: Schema): Option<seq<Attr>>
    decreases |b|
  {
    if b == [] then Some([])
    else if |b| < SIZEOF_RTATTR || Get16(b, 0) < SIZEOF_RTATTR || Get16(b, 0) > |b| then None
    else
      var len := Get16(b, 0);
      var next := if Align4(len) <= |b| then Align4(len) else |b|;
      match (DecodeOne(b[..len], schema), Decode(b[next..], schema))
      case (Some(t), Some(ts)) => Some([t] + ts)
      case _ => None
  }

  /** `b` is one attribute without its padding. */
  ghost function DecodeOne(b: seq<Byte>, schema: Schema): Option<Attr>
    requires |b| >= SIZEOF_RTATTR
    decreases |b|, 0
  {
    var kind, payload := Get16(b, 2), b[SIZEOF_RTATTR..];
    if kind !in schema.nested then Some(Leaf(kind, payload))
    else
      var sub := schema.nested[kind];
      if |payload| < sub.prefix then None
      else
        match Decode(payload[sub.prefix..], sub)
        case Some(kids) => Some(Nest(kind, payload[..sub.prefix], kids))
        case None => None
  }

  /** The tree nests where the receiver expects nests. */
  ghost predicate Conforms(ts: seq<Attr>, schema: Schema)
    decreases ts
  {
    forall i | 0 <= i < |ts| :: ConformsOne(ts[i], schema)
  }

  ghost predicate ConformsOne(t: Attr, schema: Schema)
    decreases t
  {
    match t
    case Leaf(kind, _) => kind !in schema.nested
    case Nest(kind, prefix, kids) =>
      kind in schema.nested && |prefix| == schema.nested[kind].prefix && Conforms(kids, schema.nested[kind])
  }

  /** Whatever is encoded is what the walk decodes, with nothing left over. */
  lemma {:induction false} DecodeEncodes(b: seq<Byte>, ts: seq<Attr>, schema: Schema)
    requires Encodes(b, ts) && Conforms(ts, schema)
    ensures Decode(b, schema) == Some(ts)
    decreases ts, 1
  {
    if ts != [] {
      var n, len := Size(ts[0]), Get16(b, 0);
      var e, rest := b[..n], b[n..];
      assert Get16(e, 0) == len;
      DecodeEncodesOne(e, ts[0], schema);
      DecodeEncodes(rest, ts[1..], schema);
      assert b[..len] == e[..len];
      assert ts == [ts[0]] + ts[1..];
    }
  }

  lemma {:induction false} DecodeEncodesOne(e: seq<Byte>, t: Attr, schema: Schema)
    requires EncodesOne(e, t) && ConformsOne(t, schema)
    ensures SIZEOF_RTATTR <= Get16(e, 0) <= |e| == Align4(Get16(e, 0))
    ensures DecodeOne(e[..Get16(e, 0)], schema) == Some(t)
    decreases t, 0
  {
    var b := e[..Get16(e, 0)];
    assert Get16(b, 2) == Get16(e, 2);
    match t {
      case Leaf(kind, payload) =>
        assert b[SIZEOF_RTATTR..] == payload;
      case Nest(kind, prefix, kids) =>
        var payload := b[SIZEOF_RTATTR..];
        assert payload[..|prefix|] == prefix;
        assert payload[|prefix|..] == e[SIZEOF_RTATTR + |prefix|..];
        DecodeEncodes(payload[|prefix|..], kids, schema.nested[kind]);
    }
  }

  // ---------------------------------------------------------------- the builder

  /** A nest that has been started: where its header stands, and what has been put into it so far.
      The bottom frame stands for the message itself. */
  datatype Frame = Frame(start: nat, kind: nat, prefix: seq<Byte>, kids: seq<Attr>)

  ghost function Root(ts: seq<Attr>): Frame { Frame(0, 0, [], ts) }

  ghost function Init<E>(s: seq<E>): seq<E>
    requires s != []
  {
    s[..|s| - 1]
  }

  ghost function Top<E>(s: seq<E>): E
    requires s != []
  {
    s[|s| - 1]
  }

  ghost function Content(f: Frame): nat { f.start + SIZEOF_RTATTR + |f.prefix| }

  /** From `at` on, `b` holds the attributes `kids`. */
  ghost predicate Holds(b: seq<Byte>, at: nat, kids: seq<Attr>) {
    at <= |b| && Encodes(b[at..], kids)
  }

  /** The message `b` ends in the open nest `f`: type and prefix are in place, finished attributes fill the rest. */
  ghost predicate NestAt(b: seq<Byte>, f: Frame) {
    && |b| % 4 == 0 && f.start % 4 == 0 && Holds(b, Content(f), f.kids)
    && HeadAt(b, f)
  }

  ghost predicate HeadAt(b: seq<Byte>, f: Frame) {
    && Content(f) <= |b| && Get16(b, f.start + 2) == f.kind && b[f.start + SIZEOF_RTATTR..Content(f)] == f.prefix
  }

  lemma {:induction false} HeadLonger(b: seq<Byte>, c: seq<Byte>, f: Frame, g: Frame)
    requires HeadAt(b, f) && |b| <= |c| && c[..|b|] == b
    requires g.start == f.start && g.kind == f.kind && g.prefix == f.prefix
    ensures HeadAt(c, g)
  {
    assert forall i | 0 <= i < |b| :: c[i] == c[..|b|][i] == b[i];
    assert c[f.start + SIZEOF_RTATTR..Content(f)] == b[f.start + SIZEOF_RTATTR..Content(f)];
  }

  ghost predicate RootAt(b: seq<Byte>, f: Frame) {
    |b| % 4 == 0 && f == Root(f.kids) && Holds(b, BASE, f.kids)
  }

  /** `b` is a message under construction with the nests `open`, outermost first. Every nest starts strictly
      inside the one below it, behind its finished attributes. */
  ghost predicate Layout(b: seq<Byte>, open: seq<Frame>)
    decreases |open|
  {
    && open != []
    && if |open| == 1 then RootAt(b, open[0])
       else NestAt(b, Top(open)) && Layout(b[..Top(open).start], Init(open))
  }

  /** Open nests are strictly contained in one another: each header stands behind that of the nest around it, and all
      stand within the message. */
  lemma {:induction false} LayoutNested(b: seq<Byte>, open: seq<Frame>, i: nat, j: nat)
    requires Layout(b, open) && i < j < |open|
    ensures open[i].start < open[j].start && (i > 0 ==> Content(open[i]) <= open[j].start)
    ensures open[j].start + SIZEOF_RTATTR <= |b|
    decreases |open|
  {
    var start := Top(open).start;
    if j < |open| - 1 {
      LayoutNested(b[..start], Init(open), i, j);
    } else if i > 0 {
      LayoutInside(b[..start], Init(open), i);
    } else {
      LayoutRoot(b[..start], Init(open));
    }
  }

  /** A nest other than the message itself begins within it. */
  lemma {:induction false} LayoutInside(b: seq<Byte>, open: seq<Frame>, i: nat)
    requires Layout(b, open) && 0 < i < |open|
    ensures Content(open[i]) <= |b|
    decreases |open|
  {
    if i < |open| - 1 {
      LayoutInside(b[..Top(open).start], Init(open), i);
    }
  }

  lemma {:induction false} LayoutRoot(b: seq<Byte>, open: seq<Frame>)
    requires Layout(b, open)
    ensures open[0].start == 0 < BASE <= |b|
    decreases |open|
  {
    if |open| > 1 {
      LayoutRoot(b[..Top(open).start], Init(open));
    }
  }

  ghost function AddKid(f: Frame, t: Attr): Frame { f.(kids := f.kids + [t]) }

  ghost function WithKid(open: seq<Frame>, t: Attr): seq<Frame>
    requires open != []
  {
    Init(open) + [AddKid(Top(open), t)]
  }

  lemma {:induction false} EncodesLonger(c: seq<Byte>, a: seq<Byte>, ts: seq<Attr>, b: seq<Byte>, t: Attr)
    requires c == a + b && Encodes(a, ts) && EncodesOne(b, t)
    ensures Encodes(c, ts + [t])
  {
    EncodesAppend(a, ts, b, t);
  }

  lemma {:induction false} HoldsAppend(b: seq<Byte>, at: nat, kids: seq<Attr>, e: seq<Byte>, t: Attr)
    requires Holds(b, at, kids) && EncodesOne(e, t)
    ensures Holds(b + e, at, kids + [t]) && |e| % 4 == 0
  {
    assert (b + e)[at..] == b[at..] + e;
    EncodesLonger((b + e)[at..], b[at..], kids, e, t);
  }

  lemma {:induction false} Aligned(m: nat, n: nat)
    requires m % 4 == 0 && n % 4 == 0
    ensures (m + n) % 4 == 0 && (m >= n ==> (m - n) % 4 == 0)
  {}

  lemma {:induction false} NestAppend(b: seq<Byte>, f: Frame, e: seq<Byte>, t: Attr)
    requires NestAt(b, f) && EncodesOne(e, t)
    ensures NestAt(b + e, AddKid(f, t))
  {
    HoldsAppend(b, Content(f), f.kids, e, t);
    HeadLonger(b, b + e, f, AddKid(f, t));
    Aligned(|b|, |e|);
  }

  lemma {:induction false} RootAppend(b: seq<Byte>, f: Frame, e: seq<Byte>, t: Attr)
    requires RootAt(b, f) && EncodesOne(e, t)
    ensures RootAt(b + e, AddKid(f, t))
  {
    HoldsAppend(b, BASE, f.kids, e, t);
    Aligned(|b|, |e|);
  }

  lemma {:induction false} LayoutAppend(b: seq<Byte>, open: seq<Frame>, e: seq<Byte>, t: Attr)
    requires Layout(b, open) && EncodesOne(e, t)
    ensures Layout(b + e, WithKid(open, t))
  {
    var open' := WithKid(open, t);
    if |open| == 1 {
      RootAppend(b, open[0], e, t);
    } else {
      NestAppend(b, Top(open), e, t);
      assert Init(open') == Init(open) && Top(open') == AddKid(Top(open), t);
      assert (b + e)[..Top(open).start] == b[..Top(open).start];
    }
  }

  lemma {:induction false} NestStart(b: seq<Byte>, h: seq<Byte>, kind: nat)
    requires |b| % 4 == 0 && |h| == SIZEOF_RTATTR && Get16(h, 2) == kind
    ensures NestAt(b + h, Frame(|b|, kind, [], []))
  {
    assert (b + h)[|b| + SIZEOF_RTATTR..] == [];
  }

  lemma {:induction false} LayoutAligned(b: seq<Byte>, open: seq<Frame>)
    requires Layout(b, open)
    ensures |b| % 4 == 0
  {}

  lemma {:induction false} LayoutStart(b: seq<Byte>, open: seq<Frame>, h: seq<Byte>, kind: nat)
    requires Layout(b, open) && |h| == SIZEOF_RTATTR && Get16(h, 2) == kind
    ensures Layout(b + h, open + [Frame(|b|, kind, [], [])])
  {
    var open' := open + [Frame(|b|, kind, [], [])];
    NestStart(b, h, kind);
    assert Init(open') == open && (b + h)[..|b|] == b;
  }

  lemma {:induction false} SameBeyondLength(b: seq<Byte>, e: seq<Byte>, start: nat, n: nat)
    requires start + SIZEOF_RTATTR <= start + n <= |b| && |e| == |b| - start && e[2..] == b[start + 2..]
    ensures Get16(e, 2) == Get16(b, start + 2)
    ensures e[SIZEOF_RTATTR..n] == b[start + SIZEOF_RTATTR..start + n] && e[n..] == b[start + n..]
  {
    assert forall i | 2 <= i < |e| :: e[i] == e[2..][i - 2] == b[start + i];
  }

  lemma {:induction false} NestDone(e: seq<Byte>, kind: nat, prefix: seq<Byte>, kids: seq<Attr>)
    requires SIZEOF_RTATTR + |prefix| <= |e| && |e| % 4 == 0 && Holds(e, SIZEOF_RTATTR + |prefix|, kids)
    requires Get16(e, 0) == |e| && Get16(e, 2) == kind && e[SIZEOF_RTATTR..SIZEOF_RTATTR + |prefix|] == prefix
    ensures EncodesOne(e, Nest(kind, prefix, kids))
  {
    EncodesSize(e[SIZEOF_RTATTR + |prefix|..], kids);
  }

  lemma {:induction false} HoldsTail(b: seq<Byte>, at: nat, e: seq<Byte>, n: nat, kids: seq<Attr>)
    requires Holds(b, at, kids) && n <= |e| && e[n..] == b[at..]
    ensures Holds(e, n, kids)
  {}

  lemma {:induction false} NestEnd(b: seq<Byte>, f: Frame, e: seq<Byte>)
    requires NestAt(b, f) && |e| == |b| - f.start && Get16(e, 0) == |e| && e[2..] == b[f.start + 2..]
    ensures EncodesOne(e, Nest(f.kind, f.prefix, f.kids))
  {
    var n := SIZEOF_RTATTR + |f.prefix|;
    SameBeyondLength(b, e, f.start, n);
    HoldsTail(b, Content(f), e, n, f.kids);
    Aligned(|b|, f.start);
    NestDone(e, f.kind, f.prefix, f.kids);
  }

  /** Patching the length of the innermost nest turns it into a finished attribute of the nest around it. */
  lemma {:induction false} LayoutEnd(b: seq<Byte>, open: seq<Frame>, e: seq<Byte>)
    requires Layout(b, open) && |open| > 1
    requires |e| == |b| - Top(open).start && Get16(e, 0) == |e| && e[2..] == b[Top(open).start + 2..]
    ensures var top := Top(open);
            Layout(b[..top.start] + e, WithKid(Init(open), Nest(top.kind, top.prefix, top.kids)))
  {
    var top := Top(open);
    NestEnd(b, top, e);
    LayoutAppend(b[..top.start], Init(open), e, Nest(top.kind, top.prefix, top.kids));
  }

  /** `x` and `y` are the low and the high byte of the length of the innermost nest. */
  lemma {:induction false} LayoutPatch(b: seq<Byte>, open: seq<Frame>, b': seq<Byte>, s: nat, x: Byte, y: Byte)
    requires Layout(b, open) && |open| > 1 && s == Top(open).start && s + 2 <= |b|
    requires x as nat + 256 * (y as nat) == |b| - s && b' == b[s := x][s + 1 := y]
    ensures Layout(b', WithKid(Init(open), Nest(Top(open).kind, Top(open).prefix, Top(open).kids)))
  {
    var e := b'[s..];
    assert e[2..] == b'[s + 2..] == b[s + 2..];
    assert b'[..s] == b[..s];
    assert b' == b'[..s] + e;
    LayoutEnd(b, open, e);
  }

  lemma {:induction false} TopInside(b: seq<Byte>, open: seq<Frame>)
    requires Layout(b, open) && |open| > 1
    ensures |b| % 4 == 0 && Top(open).start + SIZEOF_RTATTR <= |b|
  {}

  lemma {:induction false} PatchedPrefix(c: seq<Byte>, c': seq<Byte>, n: nat, s: nat, x: Byte, y: Byte)
    requires s + 2 <= n <= |c| && c' == c[s := x][s + 1 := y]
    ensures c'[..n] == c[..n][s := x][s + 1 := y]
  {}

  /** The same in the buffer, of which the message is the first `n` bytes. */
  lemma {:induction false} BufferPatch(c: seq<Byte>, n: nat, open: seq<Frame>, c': seq<Byte>, s: nat, x: Byte, y: Byte)
    requires n <= |c| && Layout(c[..n], open) && |open| > 1 && s == Top(open).start && s + 2 <= n
    requires x as nat + 256 * (y as nat) == n - s && c' == c[s := x][s + 1 := y]
    ensures Layout(c'[..n], WithKid(Init(open), Nest(Top(open).kind, Top(open).prefix, Top(open).kids)))
  {
    PatchedPrefix(c, c', n, s, x, y);
    LayoutPatch(c[..n], open, c'[..n], s, x, y);
  }

  lemma {:induction false} LengthPatch(c: seq<Byte>, n: nat, open: seq<Frame>, c': seq<Byte>, s: nat)
    requires n <= |c| && n < 65536 && Layout(c[..n], open) && |open| > 1 && s == Top(open).start && s + 2 <= n
    requires c' == c[s := Low(n - s)][s + 1 := High(n - s)]
    ensures Layout(c'[..n], WithKid(Init(open), Nest(Top(open).kind, Top(open).prefix, Top(open).kids)))
  {
    SplitsIn16(n - s);
    BufferPatch(c, n, open, c', s, Low(n - s), High(n - s));
  }

  ghost function AddPrefix(f: Frame, raw: seq<Byte>): Frame { f.(prefix := f.prefix + raw) }

  lemma {:induction false} NestPrefix(b: seq<Byte>, f: Frame, raw: seq<Byte>)
    requires NestAt(b, f) && f.kids == [] && |raw| % 4 == 0
    ensures NestAt(b + raw, AddPrefix(f, raw))
  {
    var s, c := f.start + SIZEOF_RTATTR, Content(f);
    assert c == |b|;
    assert (b + raw)[s..c + |raw|] == b[s..c] + raw;
    assert (b + raw)[c + |raw|..] == [];
  }

  lemma {:induction false} LayoutPrefix(b: seq<Byte>, open: seq<Frame>, raw: seq<Byte>)
    requires Layout(b, open) && |open| > 1 && Top(open).kids == [] && |raw| % 4 == 0
    ensures Layout(b + raw, Init(open) + [AddPrefix(Top(open), raw)])
  {
    var open' := Init(open) + [AddPrefix(Top(open), raw)];
    NestPrefix(b, Top(open), raw);
    assert Init(open') == Init(open) && (b + raw)[..Top(open).start] == b[..Top(open).start];
  }

  lemma {:induction false} LeafAt(b: seq<Byte>, at: nat, end: nat, kind: nat, d: seq<Byte>)
    requires at + Align4(SIZEOF_RTATTR + |d|) == end <= |b|
    requires Get16(b, at) == SIZEOF_RTATTR + |d| && Get16(b, at + 2) == kind
    requires b[at + SIZEOF_RTATTR..at + SIZEOF_RTATTR + |d|] == d
    ensures EncodesOne(b[at..end], Leaf(kind, d))
  {
    SliceOfSlice(b, at, end, SIZEOF_RTATTR, SIZEOF_RTATTR + |d|);
  }

  lemma {:induction false} SameHeader(b: seq<Byte>, c: seq<Byte>, at: nat, n: nat)
    requires at + SIZEOF_RTATTR <= n <= |b| == |c| && b[..n] == c[..n]
    ensures Get16(b, at) == Get16(c, at) && Get16(b, at + 2) == Get16(c, at + 2) && b[..at] == c[..at]
  {
    assert forall i | 0 <= i < n :: b[i] == b[..n][i] == c[i];
  }

  lemma {:induction false} SliceOfSlice(b: seq<Byte>, i: nat, j: nat, k: nat, l: nat)
    requires i <= j <= |b| && k <= l <= j - i
    ensures b[i..j][k..l] == b[i + k..i + l]
  {
    forall t | 0 <= t < l - k ensures b[i..j][k..l][t] == b[i + k..i + l][t] {}
  }

  /** struct nlmsg in a buffer of NLMSG_GOOD_SIZE bytes fresh from malloc; `len` is hdr.nlmsg_len. */
  class NlMsg {
    const buf: array<Byte>
    var len: nat
    ghost var open: seq<Frame>

    ghost predicate Valid()
      reads this, buf
    {
      buf.Length == NLMSG_GOOD_SIZE && len <= buf.Length && Layout(buf[..len], open)
    }

    constructor ()
      ensures Valid() && fresh(buf) && len == BASE && open == [Root([])]
    {
      buf := new Byte[NLMSG_GOOD_SIZE];
      len := BASE;
      open := [Root([])];
      new;
      assert buf[..len][BASE..] == [];
    }

    method PutHeader(rtattr: nat, attr: int, rtalen: nat)
      requires rtattr + SIZEOF_RTATTR <= buf.Length && rtalen < 65536
      modifies buf
      ensures buf[..rtattr] == old(buf[..rtattr])
      ensures Get16(buf[..], rtattr) == rtalen && Get16(buf[..], rtattr + 2) == attr % 65536
    {
      SplitsIn16(attr % 65536);
      SplitsIn16(rtalen);
      buf[rtattr + 2], buf[rtattr + 3] := Low(attr % 65536), High(attr % 65536);
      buf[rtattr], buf[rtattr + 1] := Low(rtalen), High(rtalen);
    }

    /** The stores of rtattr_append: header and payload go to NLMSG_TAIL, and the length grows by the aligned size. */
    method PutAttr(attr: int, d: seq<Byte>)
      requires buf.Length == NLMSG_GOOD_SIZE && len % 4 == 0 && len + SIZEOF_RTATTR + |d| <= buf.Length
      modifies this`len, buf
      ensures len == old(len) + Align4(SIZEOF_RTATTR + |d|) <= buf.Length
      ensures buf[..old(len)] == old(buf[..len])
      ensures EncodesOne(buf[old(len)..len], Leaf(attr % 65536, d))
    {
      var rtalen := SIZEOF_RTATTR + |d|;
      var tail := Align4(len);
      PutHeader(tail, attr, rtalen);
      ghost var h := buf[..];
      Copy(d, tail + SIZEOF_RTATTR);
      SameHeader(h, buf[..], tail, tail + SIZEOF_RTATTR);
      len := Align4(len) + Align4(rtalen);
      LeafAt(buf[..], tail, len, attr % 65536, d);
    }

    /** memcpy */
    method Copy(d: seq<Byte>, at: nat)
      requires at + |d| <= buf.Length
      modifies buf
      ensures buf[..at] == old(buf[..at]) && buf[at..at + |d|] == d
    {
      for i := 0 to |d|
        invariant buf[..at] == old(buf[..at]) && buf[at..at + i] == d[..i]
      {
        buf[at + i] := d[i];
      }
    }

    /** rtattr_append */
    method Append(attr: int, d: seq<Byte>)
      requires Valid() && len + SIZEOF_RTATTR + |d| <= buf.Length
      modifies this, buf
      ensures Valid() && open == WithKid(old(open), Leaf(attr % 65536, d))
      ensures len == old(len) + Align4(SIZEOF_RTATTR + |d|)
      ensures buf[..old(len)] == old(buf[..len])
    {
      ghost var b := buf[..len];
      PutAttr(attr, d);
      ghost var e := buf[old(len)..len];
      LayoutAppend(b, open, e, Leaf(attr % 65536, d));
      assert buf[..len] == b + e;
      open := WithKid(open, Leaf(attr % 65536, d));
    }

    /** rtattr_start_nested: an attribute without payload, whose place is remembered. */
    method StartNested(attr: int) returns (nest: nat)
      requires Valid() && len + SIZEOF_RTATTR <= buf.Length
      modifies this, buf
      ensures nest == old(len) && len == old(len) + SIZEOF_RTATTR
      ensures Valid() && open == old(open) + [Frame(nest, attr % 65536, [], [])]
      ensures buf[..old(len)] == old(buf[..len])
    {
      nest := Align4(len);
      ghost var b := buf[..len];
      PutAttr(attr, []);
      ghost var h := buf[old(len)..len];
      LayoutStart(b, open, h, attr % 65536);
      assert buf[..len] == b + h;
      open := open + [Frame(nest, attr % 65536, [], [])];
    }

    /** rtattr_end_nested: the length field of the nest, and nothing else, is stored. */
    method EndNested(nest: nat)
      requires Valid() && |open| > 1 && nest == Top(open).start
      modifies this`open, buf
      ensures Valid()
      ensures var f := Top(old(open)); open == WithKid(Init(old(open)), Nest(f.kind, f.prefix, f.kids))
      ensures nest + 2 <= len && len - nest < 65536
      ensures buf[..] == old(buf[..])[nest := Low(len - nest)][nest + 1 := High(len - nest)]
    {
      ghost var c := buf[..];
      assert c[..len] == buf[..len];
      TopInside(c[..len], open);
      PutLength(nest);
      ghost var c' := buf[..];
      LengthPatch(c, len, open, c', nest);
      open := WithKid(Init(open), Nest(Top(open).kind, Top(open).prefix, Top(open).kids));
      assert buf[..] == c' && buf[..len] == c'[..len];
    }

    /** The store to rta_len: the distance from the nest to NLMSG_TAIL. */
    method PutLength(nest: nat)
      requires nest + 2 <= len <= buf.Length && len % 4 == 0
      modifies buf
      ensures buf[..] == old(buf[..])[nest := Low(len - nest)][nest + 1 := High(len - nest)]
    {
      var rtalen := Align4(len) - nest;
      buf[nest], buf[nest + 1] := Low(rtalen), High(rtalen);
    }

    /** `hdr.nlmsg_len += n`: room for a structure in front of a nest's attributes, left as malloc gave it. */
    method Reserve(n: nat)
      requires Valid() && |open| > 1 && Top(open).kids == [] && n % 4 == 0 && len + n <= buf.Length
      modifies this
      ensures len == old(len) + n
      ensures Valid() && open == Init(old(open)) + [AddPrefix(Top(old(open)), buf[old(len)..len])]
    {
      LayoutPrefix(buf[..len], open, buf[len..len + n]);
      assert buf[..len + n] == buf[..len] + buf[len..len + n];
      open := Init(open) + [AddPrefix(Top(open), buf[len..len + n])];
      len := len + n;
    }

    /** A message without open nests is decoded to exactly what was put in, and consumed to its last byte. */
    lemma {:induction false} Decodes(ts: seq<Attr>, schema: Schema)
      requires Valid() && open == [Root(ts)] && Conforms(ts, schema)
      ensures Decode(buf[BASE..len], schema) == Some(ts)
      ensures len == BASE + SizeAll(ts)
    {
      assert buf[..len][BASE..] == buf[BASE..len];
      DecodeEncodes(buf[BASE..len], ts, schema);
      EncodesSize(buf[BASE..len], ts);
    }
  }
}

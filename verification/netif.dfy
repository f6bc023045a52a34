/** The link requests of src/netif.c, up to the point where they are sent. Names are C strings without their NUL. */
module Netif {
  import opened Nl
  import opened Options

  const IFLA_IFNAME: nat := 3
  const IFLA_LINK: nat := 5
  const IFLA_LINKINFO: nat := 18
  const IFLA_NET_NS_PID: nat := 19
  const IFLA_INFO_KIND: nat := 1
  const IFLA_INFO_DATA: nat := 2
  const VETH_INFO_PEER: nat := 1
  const SIZEOF_IFINFOMSG: nat := 16

  const KIND_MACVLAN: seq<Byte> := [109, 97, 99, 118, 108, 97, 110]
  const KIND_IPVLAN: seq<Byte> := [105, 112, 118, 108, 97, 110]
  const KIND_VETH: seq<Byte> := [118, 101, 116, 104]

  /** The bytes of a text in ASCII. */
  function Bytes(s: string): seq<Byte>
    requires forall k | 0 <= k < |s| :: s[k] < 128 as char
  {
    seq(|s|, k requires 0 <= k < |s| => s[k] as int)
  }

  /** How the kernel reads a link request: IFLA_LINKINFO, IFLA_INFO_DATA and VETH_INFO_PEER nest, and the peer's
      attributes follow a struct ifinfomsg. */
  const PEER_SCHEMA: Schema := Schema(SIZEOF_IFINFOMSG, map[])
  const DATA_SCHEMA: Schema := Schema(0, map[VETH_INFO_PEER := PEER_SCHEMA])
  const INFO_SCHEMA: Schema := Schema(0, map[IFLA_INFO_DATA := DATA_SCHEMA])
  const LINK_SCHEMA: Schema := Schema(0, map[IFLA_LINKINFO := INFO_SCHEMA])

  function CString(s: seq<Byte>): seq<Byte> { s + [0] }

  /** A C int in memory, in two's complement. */
  function Int32(v: int): seq<Byte>
    requires -0x8000_0000 <= v < 0x8000_0000
  {
    var u := if v < 0 then v + 0x1_0000_0000 else v;
    [u % 256, u / 256 % 256, u / 256 / 256 % 256, u / 256 / 256 / 256]
  }

  /** How the receiver reads it back. */
  function FromInt32(b: seq<Byte>): int
    requires |b| == 4
  {
    var u := (b[0] as int) + 256 * ((b[1] as int) + 256 * ((b[2] as int) + 256 * (b[3] as int)));
    if u < 0x8000_0000 then u else u - 0x1_0000_0000
  }

  lemma {:induction false} Int32RoundTrip(v: int)
    requires -0x8000_0000 <= v < 0x8000_0000
    ensures FromInt32(Int32(v)) == v
  {}

  // ---------------------------------------------------------------- bookkeeping

  /** An attribute put into the innermost nest `f`, with `below` open around it. */
  lemma {:induction false} Grown(below: seq<Frame>, f: Frame, t: Attr, kids: seq<Attr>)
    requires kids == f.kids + [t]
    ensures WithKid(below + [f], t) == below + [f.(kids := kids)]
    ensures Top(below + [f]) == f && Init(below + [f]) == below
  {}

  /** The innermost nest `f` finished as an attribute of `g`. */
  lemma {:induction false} Finished(below: seq<Frame>, g: Frame, f: Frame, kids: seq<Attr>)
    requires kids == g.kids + [Nest(f.kind, f.prefix, f.kids)]
    ensures Top(below + [g] + [f]) == f
    ensures WithKid(Init(below + [g] + [f]), Nest(f.kind, f.prefix, f.kids)) == below + [g.(kids := kids)]
  {
    assert Init(below + [g] + [f]) == below + [g];
    Grown(below, g, Nest(f.kind, f.prefix, f.kids), kids);
  }

  lemma {:induction false} GrownRoot(kids: seq<Attr>, t: Attr, kids': seq<Attr>)
    requires kids' == kids + [t]
    ensures WithKid([Root(kids)], t) == [Root(kids')]
  {}

  lemma {:induction false} FinishedRoot(kids: seq<Attr>, f: Frame, kids': seq<Attr>)
    requires kids' == kids + [Nest(f.kind, f.prefix, f.kids)]
    ensures Top([Root(kids)] + [f]) == f
    ensures WithKid(Init([Root(kids)] + [f]), Nest(f.kind, f.prefix, f.kids)) == [Root(kids')]
  {
    assert Init([Root(kids)] + [f]) == [Root(kids)];
    GrownRoot(kids, Nest(f.kind, f.prefix, f.kids), kids');
  }

  lemma {:induction false} Prefixed(below: seq<Frame>, f: Frame, raw: seq<Byte>)
    requires f.prefix == []
    ensures Top(below + [f]) == f
    ensures Init(below + [f]) + [AddPrefix(f, raw)] == below + [f.(prefix := raw)]
  {
    assert [] + raw == raw;
  }

  lemma {:induction false} AlignHeader(n: nat)
    ensures Align4(SIZEOF_RTATTR + n) == SIZEOF_RTATTR + Align4(n)
  {}

  /** A nest without a structure in front, holding one leaf. */
  lemma {:induction false} ConformsLeaf(kind: nat, payload: seq<Byte>, schema: Schema)
    requires kind !in schema.nested
    ensures Conforms([Leaf(kind, payload)], schema)
  {}

  // ---------------------------------------------------------------- the requests

  ghost function MoveTree(pid: seq<Byte>, name: seq<Byte>): seq<Attr> {
    [Leaf(IFLA_NET_NS_PID, pid), Leaf(IFLA_IFNAME, name)]
  }

  lemma {:induction false} MoveConforms(pid: seq<Byte>, name: seq<Byte>)
    ensures Conforms(MoveTree(pid, name), LINK_SCHEMA)
  {}

  lemma {:induction false} MoveDecodes(m: NlMsg, pid: seq<Byte>, name: seq<Byte>)
    requires m.Valid() && m.open == [Root(MoveTree(pid, name))]
    ensures BASE <= m.len && Decode(m.buf[BASE..m.len], LINK_SCHEMA) == Some(MoveTree(pid, name))
  {
    MoveConforms(pid, name);
    m.Decodes(MoveTree(pid, name), LINK_SCHEMA);
  }

  /** A call of rtattr_append while no nest is open; `kids` are the attributes so far. */
  method AppendRoot(m: NlMsg, attr: int, d: seq<Byte>, ghost kids: seq<Attr>, ghost kids': seq<Attr>)
    requires m.Valid() && m.open == [Root(kids)] && kids' == kids + [Leaf(attr % 65536, d)]
    requires m.len + SIZEOF_RTATTR + |d| <= m.buf.Length
    modifies m, m.buf
    ensures m.Valid() && m.open == [Root(kids')] && m.len == old(m.len) + SIZEOF_RTATTR + Align4(|d|)
  {
    AlignHeader(|d|);
    GrownRoot(kids, Leaf(attr % 65536, d), kids');
    m.Append(attr, d);
  }

  /** A call of rtattr_append in the innermost nest `f`, with `below` open around it; `g` is the nest afterwards. */
  method AppendIn(m: NlMsg, attr: int, d: seq<Byte>, ghost below: seq<Frame>, ghost f: Frame, ghost g: Frame)
    requires m.Valid() && m.open == below + [f] && g == f.(kids := f.kids + [Leaf(attr % 65536, d)])
    requires m.len + SIZEOF_RTATTR + |d| <= m.buf.Length
    modifies m, m.buf
    ensures m.Valid() && m.open == below + [g] && m.len == old(m.len) + SIZEOF_RTATTR + Align4(|d|)
  {
    AlignHeader(|d|);
    Grown(below, f, Leaf(attr % 65536, d), g.kids);
    m.Append(attr, d);
  }

  /** A call of rtattr_start_nested with `open` around it. */
  method StartIn(m: NlMsg, attr: int, ghost open: seq<Frame>) returns (nest: nat)
    requires m.Valid() && m.open == open && m.len + SIZEOF_RTATTR <= m.buf.Length
    modifies m, m.buf
    ensures m.Valid() && m.open == open + [Frame(nest, attr % 65536, [], [])] && m.len == old(m.len) + SIZEOF_RTATTR
  {
    nest := m.StartNested(attr);
  }

  /** A call of rtattr_end_nested for the only nest `f`; `kids` are the attributes in front of it. */
  method EndRoot(m: NlMsg, nest: nat, ghost kids: seq<Attr>, ghost f: Frame, ghost kids': seq<Attr>)
    requires m.Valid() && m.open == [Root(kids)] + [f] && nest == f.start
    requires kids' == kids + [Nest(f.kind, f.prefix, f.kids)]
    modifies m, m.buf
    ensures m.Valid() && m.open == [Root(kids')] && m.len == old(m.len)
  {
    FinishedRoot(kids, f, kids');
    m.EndNested(nest);
  }

  /** The raw bump of the length in the innermost nest `f`, still empty. */
  method ReserveIn(m: NlMsg, n: nat, ghost below: seq<Frame>, ghost f: Frame) returns (ghost raw: seq<Byte>)
    requires m.Valid() && below != [] && m.open == below + [f] && f.kids == [] && f.prefix == []
    requires n % 4 == 0 && m.len + n <= m.buf.Length
    modifies m
    ensures m.Valid() && |raw| == n && m.open == below + [f.(prefix := raw)] && m.len == old(m.len) + n
  {
    raw := m.buf[m.len..m.len + n];
    Prefixed(below, f, raw);
    m.Reserve(n);
  }

  method PutMove(pid: seq<Byte>, name: seq<Byte>) returns (m: NlMsg)
    requires |pid| == 4 && 44 + Align4(|name|) <= NLMSG_GOOD_SIZE
    ensures m.Valid() && m.len == 44 + Align4(|name|) <= m.buf.Length
    ensures Decode(m.buf[BASE..m.len], LINK_SCHEMA) == Some(MoveTree(pid, name))
  {
    ghost var t := MoveTree(pid, name);
    m := new NlMsg();
    AppendRoot(m, IFLA_NET_NS_PID, pid, [], [t[0]]);
    AppendRoot(m, IFLA_IFNAME, name, [t[0]], t);
    MoveDecodes(m, pid, name);
  }

  /** move_and_rename_if */
  method MoveAndRenameIf(pid: int, newName: seq<Byte>) returns (m: NlMsg)
    requires -0x8000_0000 <= pid < 0x8000_0000
    requires 44 + Align4(|newName| + 1) <= NLMSG_GOOD_SIZE
    ensures m.Valid() && m.len == 44 + Align4(|newName| + 1) <= m.buf.Length
    ensures Decode(m.buf[BASE..m.len], LINK_SCHEMA) == Some(MoveTree(Int32(pid), CString(newName)))
  {
    m := PutMove(Int32(pid), CString(newName));
  }

  ghost function VlanTree(kind: seq<Byte>, master: seq<Byte>, name: seq<Byte>): seq<Attr> {
    [Nest(IFLA_LINKINFO, [], [Leaf(IFLA_INFO_KIND, kind)]), Leaf(IFLA_LINK, master), Leaf(IFLA_IFNAME, name)]
  }

  lemma {:induction false} VlanConforms(kind: seq<Byte>, master: seq<Byte>, name: seq<Byte>)
    ensures Conforms(VlanTree(kind, master, name), LINK_SCHEMA)
  {
    ConformsLeaf(IFLA_INFO_KIND, kind, INFO_SCHEMA);
    assert ConformsOne(Nest(IFLA_LINKINFO, [], [Leaf(IFLA_INFO_KIND, kind)]), LINK_SCHEMA);
  }

  lemma {:induction false} VlanDecodes(m: NlMsg, kind: seq<Byte>, master: seq<Byte>, name: seq<Byte>)
    requires m.Valid() && m.open == [Root(VlanTree(kind, master, name))]
    ensures BASE <= m.len && Decode(m.buf[BASE..m.len], LINK_SCHEMA) == Some(VlanTree(kind, master, name))
  {
    VlanConforms(kind, master, name);
    m.Decodes(VlanTree(kind, master, name), LINK_SCHEMA);
  }

  /** The link-info nest that create_macvlan and create_ipvlan share; `kind` includes its NUL. */
  method PutVlanInfo(kind: seq<Byte>) returns (m: NlMsg)
    requires 5 <= |kind| <= 8
    ensures m.Valid() && fresh(m) && fresh(m.buf) && m.len == 48
    ensures m.open == [Root([Nest(IFLA_LINKINFO, [], [Leaf(IFLA_INFO_KIND, kind)])])]
  {
    m := new NlMsg();
    var nested := m.StartNested(IFLA_LINKINFO);
    ghost var f, k := Frame(nested, IFLA_LINKINFO, [], []), Leaf(IFLA_INFO_KIND, kind);
    AppendIn(m, IFLA_INFO_KIND, kind, [Root([])], f, f.(kids := [k]));
    EndRoot(m, nested, [], f.(kids := [k]), [Nest(IFLA_LINKINFO, [], [k])]);
  }

  /** The text that create_macvlan and create_ipvlan share; `kind` and `name` include their NUL. */
  method PutVlan(kind: seq<Byte>, master: seq<Byte>, name: seq<Byte>) returns (m: NlMsg)
    requires 5 <= |kind| <= 8 && |master| == 4 && 60 + Align4(|name|) <= NLMSG_GOOD_SIZE
    ensures m.Valid() && m.len == 60 + Align4(|name|) <= m.buf.Length
    ensures Decode(m.buf[BASE..m.len], LINK_SCHEMA) == Some(VlanTree(kind, master, name))
  {
    ghost var t := VlanTree(kind, master, name);
    m := PutVlanInfo(kind);
    AppendRoot(m, IFLA_LINK, master, [t[0]], [t[0], t[1]]);
    AppendRoot(m, IFLA_IFNAME, name, [t[0], t[1]], t);
    VlanDecodes(m, kind, master, name);
  }

  /** create_macvlan */
  method CreateMacvlan(master: int, name: seq<Byte>) returns (m: NlMsg)
    requires -0x8000_0000 <= master < 0x8000_0000
    requires 60 + Align4(|name| + 1) <= NLMSG_GOOD_SIZE
    ensures m.Valid() && m.len == 60 + Align4(|name| + 1) <= m.buf.Length
    ensures Decode(m.buf[BASE..m.len], LINK_SCHEMA) ==
            Some(VlanTree(CString(KIND_MACVLAN), Int32(master), CString(name)))
  {
    m := PutVlan(CString(KIND_MACVLAN), Int32(master), CString(name));
  }

  /** create_ipvlan */
  method CreateIpvlan(master: int, name: seq<Byte>) returns (m: NlMsg)
    requires -0x8000_0000 <= master < 0x8000_0000
    requires 60 + Align4(|name| + 1) <= NLMSG_GOOD_SIZE
    ensures m.Valid() && m.len == 60 + Align4(|name| + 1) <= m.buf.Length
    ensures Decode(m.buf[BASE..m.len], LINK_SCHEMA) ==
            Some(VlanTree(CString(KIND_IPVLAN), Int32(master), CString(name)))
  {
    m := PutVlan(CString(KIND_IPVLAN), Int32(master), CString(name));
  }

  ghost function PeerAttr(nameIn: seq<Byte>, template: seq<Byte>): Attr {
    Nest(VETH_INFO_PEER, template, [Leaf(IFLA_IFNAME, CString(nameIn))])
  }

  ghost function VethInfo(nameIn: seq<Byte>, template: seq<Byte>): Attr {
    Nest(IFLA_LINKINFO, [],
         [Leaf(IFLA_INFO_KIND, CString(KIND_VETH)), Nest(IFLA_INFO_DATA, [], [PeerAttr(nameIn, template)])])
  }

  /** What the kernel is to read from a veth request; the peer's struct ifinfomsg is whatever malloc left there. */
  ghost function VethTree(nameOut: seq<Byte>, nameIn: seq<Byte>, template: seq<Byte>): seq<Attr> {
    [VethInfo(nameIn, template), Leaf(IFLA_IFNAME, CString(nameOut))]
  }

  lemma {:induction false} VethConforms(nameOut: seq<Byte>, nameIn: seq<Byte>, template: seq<Byte>)
    requires |template| == SIZEOF_IFINFOMSG
    ensures Conforms(VethTree(nameOut, nameIn, template), LINK_SCHEMA)
  {
    ConformsLeaf(IFLA_IFNAME, CString(nameIn), PEER_SCHEMA);
    assert ConformsOne(PeerAttr(nameIn, template), DATA_SCHEMA);
    assert Conforms([PeerAttr(nameIn, template)], DATA_SCHEMA);
    assert ConformsOne(Nest(IFLA_INFO_DATA, [], [PeerAttr(nameIn, template)]), INFO_SCHEMA);
    assert ConformsOne(VethInfo(nameIn, template), LINK_SCHEMA);
  }

  lemma {:induction false} VethDecodes(m: NlMsg, nameOut: seq<Byte>, nameIn: seq<Byte>, template: seq<Byte>)
    requires m.Valid() && |template| == SIZEOF_IFINFOMSG && m.open == [Root(VethTree(nameOut, nameIn, template))]
    ensures BASE <= m.len && Decode(m.buf[BASE..m.len], LINK_SCHEMA) == Some(VethTree(nameOut, nameIn, template))
  {
    VethConforms(nameOut, nameIn, template);
    m.Decodes(VethTree(nameOut, nameIn, template), LINK_SCHEMA);
  }

  /** The state of a veth request with its three nests open. */
  ghost function VethOpen(info: nat, infoKids: seq<Attr>, data: nat, dataKids: seq<Attr>): seq<Frame> {
    [Root([])] + [Frame(info, IFLA_LINKINFO, [], infoKids)] + [Frame(data, IFLA_INFO_DATA, [], dataKids)]
  }

  ghost function KindAttr(): Attr { Leaf(IFLA_INFO_KIND, CString(KIND_VETH)) }

  /** create_veth_pair, lines 293 and 294: the outermost nest, with the kind in it. */
  method VethKind() returns (m: NlMsg, info: nat)
    ensures m.Valid() && fresh(m) && fresh(m.buf) && m.len == 48
    ensures m.open == [Root([])] + [Frame(info, IFLA_LINKINFO, [], [KindAttr()])]
  {
    m := new NlMsg();
    info := m.StartNested(IFLA_LINKINFO);
    ghost var f := Frame(info, IFLA_LINKINFO, [], []);
    AppendIn(m, IFLA_INFO_KIND, CString(KIND_VETH), [Root([])], f, f.(kids := [KindAttr()]));
  }

  /** Lines 293 to 297: all nests are started. */
  method VethStart() returns (m: NlMsg, info: nat, data: nat, peer: nat)
    ensures m.Valid() && fresh(m) && fresh(m.buf) && m.len == 56
    ensures m.open == VethOpen(info, [KindAttr()], data, []) + [Frame(peer, VETH_INFO_PEER, [], [])]
  {
    m, info := VethKind();
    data := StartIn(m, IFLA_INFO_DATA, [Root([])] + [Frame(info, IFLA_LINKINFO, [], [KindAttr()])]);
    peer := StartIn(m, VETH_INFO_PEER, VethOpen(info, [KindAttr()], data, []));
  }

  /** Lines 299 and 300: room for the peer's structure, and its name. */
  method VethPeer(m: NlMsg, ghost below: seq<Frame>, peer: nat, nameIn: seq<Byte>) returns (ghost template: seq<Byte>)
    requires m.Valid() && m.open == below + [Frame(peer, VETH_INFO_PEER, [], [])] && below != []
    requires m.len + 20 + Align4(|nameIn| + 1) <= m.buf.Length
    modifies m, m.buf
    ensures m.Valid() && m.len == old(m.len) + 20 + Align4(|nameIn| + 1) && |template| == SIZEOF_IFINFOMSG
    ensures m.open == below + [Frame(peer, VETH_INFO_PEER, template, [Leaf(IFLA_IFNAME, CString(nameIn))])]
  {
    ghost var f, n := Frame(peer, VETH_INFO_PEER, [], []), Leaf(IFLA_IFNAME, CString(nameIn));
    template := ReserveIn(m, SIZEOF_IFINFOMSG, below, f);
    AppendIn(m, IFLA_IFNAME, CString(nameIn), below, f.(prefix := template), f.(prefix := template, kids := [n]));
  }

  /** Lines 302 to 305: the nests are ended, innermost first. */
  method VethEnd(m: NlMsg, info: nat, data: nat, peer: nat, ghost nameIn: seq<Byte>, ghost template: seq<Byte>)
    requires m.Valid()
    requires m.open == VethOpen(info, [KindAttr()], data, []) +
                       [Frame(peer, VETH_INFO_PEER, template, [Leaf(IFLA_IFNAME, CString(nameIn))])]
    modifies m, m.buf
    ensures m.Valid() && m.len == old(m.len) && m.open == [Root([VethInfo(nameIn, template)])]
  {
    ghost var p, t := PeerAttr(nameIn, template), VethInfo(nameIn, template);
    ghost var f, g := Frame(info, IFLA_LINKINFO, [], [KindAttr()]), Frame(data, IFLA_INFO_DATA, [], []);
    Finished([Root([])] + [f], g, Frame(peer, VETH_INFO_PEER, template, p.kids), [p]);
    m.EndNested(peer);
    Finished([Root([])], f, g.(kids := [p]), t.kids);
    m.EndNested(data);
    FinishedRoot([], f.(kids := t.kids), [t]);
    m.EndNested(info);
  }

  /** Line 307: the name outside. */
  method VethName(m: NlMsg, nameOut: seq<Byte>, ghost nameIn: seq<Byte>, ghost template: seq<Byte>)
    requires m.Valid() && m.open == [Root([VethInfo(nameIn, template)])] && |template| == SIZEOF_IFINFOMSG
    requires m.len + SIZEOF_RTATTR + |nameOut| + 1 <= m.buf.Length
    modifies m, m.buf
    ensures m.Valid() && BASE <= m.len == old(m.len) + SIZEOF_RTATTR + Align4(|nameOut| + 1) <= m.buf.Length
    ensures Decode(m.buf[BASE..m.len], LINK_SCHEMA) == Some(VethTree(nameOut, nameIn, template))
  {
    AppendRoot(m, IFLA_IFNAME, CString(nameOut), [VethInfo(nameIn, template)], VethTree(nameOut, nameIn, template));
    VethDecodes(m, nameOut, nameIn, template);
  }

  /** create_veth_pair */
  method CreateVethPair(nameOut: seq<Byte>, nameIn: seq<Byte>) returns (m: NlMsg, ghost template: seq<Byte>)
    requires 80 + Align4(|nameOut| + 1) + Align4(|nameIn| + 1) <= NLMSG_GOOD_SIZE
    ensures m.Valid() && m.len == 80 + Align4(|nameOut| + 1) + Align4(|nameIn| + 1) <= m.buf.Length
    ensures |template| == SIZEOF_IFINFOMSG
    ensures Decode(m.buf[BASE..m.len], LINK_SCHEMA) == Some(VethTree(nameOut, nameIn, template))
  {
    var info, data, peer;
    m, info, data, peer := VethStart();
    template := VethPeer(m, VethOpen(info, [KindAttr()], data, []), peer, nameIn);
    VethEnd(m, info, data, peer, nameIn, template);
    VethName(m, nameOut, nameIn, template);
  }

  // ---------------------------------------------------------------- spelled out

  /** The requests in the numbers and names of the kernel: IFLA_LINKINFO is 18, IFLA_LINK 5, IFLA_IFNAME 3 and
      IFLA_NET_NS_PID 19; inside, IFLA_INFO_KIND is 1, IFLA_INFO_DATA 2 and VETH_INFO_PEER 1. */
  lemma {:induction false} VlanSpelled(master: seq<Byte>, name: seq<Byte>)
    ensures VlanTree(CString(KIND_MACVLAN), master, CString(name)) ==
            [Nest(18, [], [Leaf(1, Bytes("macvlan") + [0])]), Leaf(5, master), Leaf(3, name + [0])]
    ensures VlanTree(CString(KIND_IPVLAN), master, CString(name)) ==
            [Nest(18, [], [Leaf(1, Bytes("ipvlan") + [0])]), Leaf(5, master), Leaf(3, name + [0])]
  {
    assert KIND_MACVLAN == Bytes("macvlan") && KIND_IPVLAN == Bytes("ipvlan");
  }

  lemma {:induction false} VethSpelled(nameOut: seq<Byte>, nameIn: seq<Byte>, template: seq<Byte>)
    ensures VethTree(nameOut, nameIn, template) ==
            [Nest(18, [], [Leaf(1, Bytes("veth") + [0]), Nest(2, [], [Nest(1, template, [Leaf(3, nameIn + [0])])])]),
             Leaf(3, nameOut + [0])]
  {
    assert KIND_VETH == Bytes("veth");
  }

  /** A request byte by byte: process 258, new name "x"; the two bytes of padding may be anything. */
  lemma {:induction false} MoveOnTheWire(b: seq<Byte>, p: Byte, q: Byte)
    requires b == [8, 0, 19, 0, 2, 1, 0, 0, 6, 0, 3, 0, 120, 0, p, q]
    ensures Encodes(b, MoveTree(Int32(258), CString(Bytes("x"))))
  {
    var x, y := [8, 0, 19, 0, 2, 1, 0, 0], [6, 0, 3, 0, 120, 0, p, q];
    var s, t := Leaf(IFLA_NET_NS_PID, Int32(258)), Leaf(IFLA_IFNAME, CString(Bytes("x")));
    assert Int32(258) == [2, 1, 0, 0] == x[4..8] && CString(Bytes("x")) == [120, 0] == y[4..6];
    EncodesCons(y, t, [], []);
    EncodesCons(x, s, y, [t]);
    assert y + [] == y && [t] + [] == [t] && b == x + y && [s] + [t] == MoveTree(Int32(258), CString(Bytes("x")));
  }
}

/** The functions of src/mount.c on the lists they build and walk. */
module MountList {
  import opened UtSort
  import opened UtList
  import opened Path
  import opened Paths
  import opened Util
  import opened Mounts
  import opened Validate
  import opened Options
  import opened Sequences

  /** struct mount; its links are those of the node that holds it. */
  class Mount {
    const src: Option<string>
    const dst: string
    const kind: string
    const flags: set<Flag>
    var data: Data

    constructor (src: Option<string>, dst: string, kind: string, flags: set<Flag>, data: Data)
      ensures this.src == src && this.dst == dst && this.kind == kind && this.flags == flags && this.data == data
    {
      this.src, this.dst, this.kind, this.flags, this.data := src, dst, kind, flags, data;
    }
  }

  ghost function View(m: Mount): Entry
    reads m
  {
    Entry(m.src, m.dst, m.kind, m.flags, m.data)
  }

  ghost function Payload(nodes: seq<Node<Mount>>): set<Mount> {
    set n | n in nodes :: n.val
  }

  ghost function Views(nodes: seq<Node<Mount>>): (v: seq<Entry>)
    reads Payload(nodes)
    ensures |v| == |nodes|
  {
    seq(|nodes|, i requires 0 <= i < |nodes| reads Payload(nodes) => View(nodes[i].val))
  }

  /** No mount is in the list twice. */
  ghost predicate OwnPayload(nodes: seq<Node<Mount>>) {
    forall i, j | 0 <= i < j < |nodes| :: nodes[i].val != nodes[j].val
  }

  /** The list grew from `was` by nodes with mounts of their own, which stand for `es`. */
  ghost predicate Grown(l: DList<Mount>, was: seq<Node<Mount>>, added: seq<Node<Mount>>, es: seq<Entry>)
    reads l, l.nodes, Payload(added)
  {
    l.Valid() && l.nodes == was + added && OwnPayload(added) && Views(added) == es
  }

  // ---------------------------------------------------------------- building

  /** mount_add */
  method MountAdd(l: DList<Mount>, src: Option<string>, dst: string, kind: string, flags: set<Flag>, data: Data,
                  ghost was: seq<Node<Mount>>, ghost added: seq<Node<Mount>>, ghost es: seq<Entry>)
      returns (ghost mnt: Node<Mount>)
    requires Grown(l, was, added, es)
    modifies l, was, added
    ensures fresh(mnt) && fresh(mnt.val)
    ensures Grown(l, was, added + [mnt], es + [Entry(src, dst, kind, flags, data)])
  {
    var m := new Mount(src, dst, kind, flags, data);
    var n := new Node(m);
    l.Append(n);
    mnt := n;
  }

  /** The C string at `at`, a field of `s`. */
  method CString(buf: array<char>, at: nat, ghost s: string, ghost f: Span) returns (t: string)
    requires Cut(buf[..], s, f) && '\0' !in s && at == f.start
    ensures t == s[f.start..f.end]
  {
    t := [];
    while buf[at + |t|] != '\0'
      invariant at + |t| <= f.end && t == s[f.start..f.start + |t|]
      decreases f.end - |t|
    {
      t := t + [buf[at + |t|]];
    }
  }

  /** The start of mount_add_from_spec: the spec is copied and cut into its fields. `first` says whether there is one,
      or a NULL pointer in its place. */
  method SpecToFields(spec: string) returns (first: bool, opts: seq<string>)
    requires '\0' !in spec
    ensures first <==> Fields(spec, ":") != []
    ensures first ==> opts == Fields(spec, ":")
  {
    ghost var all := Spans(spec, ":", 0);
    var tmp := StrDup(spec);
    var starts := SplitStr(tmp, ":", spec);
    assert |Fields(spec, ":")| == |all|;
    ghost var cut := tmp[..];
    opts := [];
    first := starts[0] != -1;
    if !first { return; }
    while |opts| < |starts|
      invariant |opts| <= |starts| && opts == Fields(spec, ":")[..|opts|] && tmp[..] == cut
    {
      var t := CString(tmp, starts[|opts|], spec, all[|opts|]);
      opts := opts + [t];
    }
  }

  /** The branches of mount_add_from_spec. Other outcomes than Goes end the process. */
  method MountAddFromSpec(l: DList<Mount>, spec: string,
                          ghost was: seq<Node<Mount>>, ghost added: seq<Node<Mount>>, ghost es: seq<Entry>)
      returns (r: Outcome, ghost more: seq<Node<Mount>>)
    requires Grown(l, was, added, es) && '\0' !in spec
    modifies l, was, added
    ensures fresh(more) && forall n | n in more :: fresh(n.val)
    ensures r == SpecOutcome(spec)
    ensures r == Goes ==> Grown(l, was, added + more, es + EntriesOf(spec))
    ensures r != Goes ==> Grown(l, was, added, es)
  {
    var some, opts := SpecToFields(spec);
    more := [];
    if !some { return NullRead, []; }
    r, more := AddFields(l, opts, was, added, es);
  }

  /** mount_add_from_spec behind split_str. */
  method AddFields(l: DList<Mount>, opts: seq<string>,
                   ghost was: seq<Node<Mount>>, ghost added: seq<Node<Mount>>, ghost es: seq<Entry>)
      returns (r: Outcome, ghost more: seq<Node<Mount>>)
    requires Grown(l, was, added, es) && opts != []
    modifies l, was, added
    ensures fresh(more) && forall n | n in more :: fresh(n.val)
    ensures r == if SpecEntries(opts).Some? then Goes else Refused
    ensures r == Goes ==> Grown(l, was, added + more, es + SpecEntries(opts).value)
    ensures r != Goes ==> Grown(l, was, added, es)
  {
    more := [];
    ghost var first;
    if StartsWith(opts[0], "bind") {
      if |opts| < 3 || !IsAbsolute(opts[1]) || !IsAbsolute(opts[2]) { return Refused, []; }
      more := AddBinds(l, opts[1], opts[2], opts[0] == "bind-ro", was, added, es);
    } else if opts[0] == "overlay" {
      if |opts| < 4 || !IsAbsolute(opts[1]) || !IsAbsolute(opts[2]) || !IsAbsolute(opts[3]) { return Refused, []; }
      first := MountAdd(l, None, opts[2], "overlay", {}, Layers(opts[1], opts[3]), was, added, es);
      more := [first];
    } else if opts[0] == "tmp" {
      if |opts| < 2 || !IsAbsolute(opts[1]) { return Refused, []; }
      first := MountAdd(l, Some("tmpfs"), opts[1], "tmpfs", {}, NoData, was, added, es);
      more := [first];
    } else {
      return Refused, [];
    }
    r := Goes;
  }

  /** A bind, and its read-only remount if `ro`. */
  method AddBinds(l: DList<Mount>, src: string, dst: string, ro: bool,
                  ghost was: seq<Node<Mount>>, ghost added: seq<Node<Mount>>, ghost es: seq<Entry>)
      returns (ghost more: seq<Node<Mount>>)
    requires Grown(l, was, added, es)
    modifies l, was, added
    ensures fresh(more) && forall n | n in more :: fresh(n.val)
    ensures Grown(l, was, added + more,
                  es + if ro then [BindEntry(src, dst), ReadOnlyEntry(src, dst)] else [BindEntry(src, dst)])
  {
    ghost var bind, remount := BindEntry(src, dst), ReadOnlyEntry(src, dst);
    ghost var first := MountAdd(l, Some(src), dst, "bind", {Bind}, NoData, was, added, es);
    more := [first];
    if ro {
      ghost var second := MountAdd(l, Some(src), dst, "bind-ro", {Remount, Bind, Rdonly}, NoData,
                                   was, added + [first], es + [bind]);
      more := [first] + [second];
      Assoc(added, [first], [second]);
      Assoc(es, [bind], [remount]);
      assert [bind, remount] == [bind] + [remount];
    }
  }

  /** One turn of the loop of main over the --mount options. */
  method OneMount(l: DList<Mount>, spec: string, ghost added: seq<Node<Mount>>, ghost es: seq<Entry>)
      returns (r: Outcome, ghost more: seq<Node<Mount>>)
    requires Grown(l, [], added, es) && '\0' !in spec
    modifies l, added
    ensures fresh(more) && forall n | n in more :: fresh(n.val)
    ensures r == SpecOutcome(spec)
    ensures r == Goes ==> Grown(l, [], added + more, es + EntriesOf(spec))
  {
    more := [];
    r := ValidateOptlist(spec);
    if r == Goes {
      r, more := MountAddFromSpec(l, spec, [], added, es);
    }
  }

  /** The loop of main over the --mount options, from an empty list on. `n` options have got through. */
  method AddMounts(l: DList<Mount>, specs: seq<string>) returns (r: Outcome, n: nat, ghost added: seq<Node<Mount>>)
    requires l.Valid() && l.nodes == []
    requires forall k | 0 <= k < |specs| :: '\0' !in specs[k]
    modifies l
    ensures n <= |specs| && Accepted(specs[..n])
    ensures if r == Goes then n == |specs| else n < |specs| && r == SpecOutcome(specs[n])
    ensures r == Goes ==>
              fresh(added) && (forall m | m in added :: fresh(m.val)) && Grown(l, [], added, UserEntries(specs[..n]))
  {
    n, added := 0, [];
    while n < |specs|
      invariant n <= |specs| && Accepted(specs[..n]) && Grown(l, [], added, UserEntries(specs[..n]))
      invariant fresh(added) && forall m | m in added :: fresh(m.val)
    {
      ghost var more;
      r, more := OneMount(l, specs[n], added, UserEntries(specs[..n]));
      if r != Goes { return; }
      OneMoreSpec(specs, n);
      added, n := added + more, n + 1;
    }
    r := Goes;
  }

  lemma {:induction false} OneMoreSpec(specs: seq<string>, k: nat)
    requires k < |specs| && Accepted(specs[..k]) && AcceptedSpec(specs[k])
    ensures Accepted(specs[..k + 1]) && UserEntries(specs[..k + 1]) == UserEntries(specs[..k]) + EntriesOf(specs[k])
  {
    assert specs[..k + 1][..k] == specs[..k];
  }

  // ---------------------------------------------------------------- setup_mount

  /** Calls of mount_add in a row. */
  method MountAddEach(l: DList<Mount>, v: seq<Entry>) returns (ghost all: seq<Node<Mount>>)
    requires l.Valid() && l.nodes == []
    modifies l
    ensures fresh(all) && (forall n | n in all :: fresh(n.val)) && Grown(l, [], all, v)
  {
    all := [];
    for k := 0 to |v|
      invariant fresh(all) && (forall n | n in all :: fresh(n.val)) && Grown(l, [], all, v[..k])
    {
      ghost var n := MountAddOne(l, v, k, all);
      all := all + [n];
    }
    assert v[..|v|] == v;
  }

  method MountAddOne(l: DList<Mount>, v: seq<Entry>, k: nat, ghost all: seq<Node<Mount>>)
      returns (ghost mnt: Node<Mount>)
    requires k < |v| && Grown(l, [], all, v[..k])
    modifies l, all
    ensures fresh(mnt) && fresh(mnt.val) && Grown(l, [], all + [mnt], v[..k + 1])
  {
    assert v[..k + 1] == v[..k] + [v[k]];
    mnt := MountAdd(l, v[k].src, v[k].dst, v[k].kind, v[k].flags, v[k].data, [], all, v[..k]);
  }

  /** What the traversal leaves in the list: overlays have become texts. */
  ghost function Worked(dest: Option<string>, e: Entry, aufs: bool): Entry {
    e.(data := DataFor(e, PrefixRoot(dest, e.dst), aufs))
  }

  /** The body of the traversal; the target is what path_prefix_root computes. */
  method MountOne(m: Mount, dest: Option<string>, aufs: bool) returns (r: seq<Request>)
    requires Sound(View(m))
    modifies m
    ensures r == Issued(dest, old(View(m)), aufs) && View(m) == Worked(dest, old(View(m)), aufs)
  {
    var target := PrefixRoot(dest, m.dst);
    if m.kind == "overlay" {
      m.data := Text(OverlayText(m.data.overlay, m.data.workdir, target, aufs));
    }
    if m.kind == "bind" || m.kind == "bind-ro" {
      r := [MakeBindDest(m.src.value, target)];
    } else {
      r := [MakeDir(target)];
    }
    r := r + [MountCall(m.src, target, Some(m.kind), m.flags, AsText(m.data))];
  }

  /** The first `k` mounts have been put to work, the others are as they were. */
  ghost predicate WorkedTo(nodes: seq<Node<Mount>>, dest: Option<string>, es: seq<Entry>, k: nat, aufs: bool)
    reads Payload(nodes)
  {
    && |nodes| == |es| && k <= |es| && OwnPayload(nodes)
    && forall j | 0 <= j < |nodes| :: View(nodes[j].val) == if j < k then Worked(dest, es[j], aufs) else es[j]
  }

  lemma {:induction false} Unworked(nodes: seq<Node<Mount>>, dest: Option<string>, aufs: bool)
    requires OwnPayload(nodes)
    ensures WorkedTo(nodes, dest, Views(nodes), 0, aufs)
  {}

  /** The traversal has come to position `k`. */
  ghost predicate Walking(l: DList<Mount>, dest: Option<string>, aufs: bool, es: seq<Entry>, k: nat,
                          i: Node?<Mount>, r: seq<Request>)
    reads l, l.nodes, Payload(l.nodes)
  {
    && l.Valid() && WorkedTo(l.nodes, dest, es, k, aufs) && i == At(l.nodes, k, null)
    && r == IssuedAll(dest, es[..k], aufs)
  }

  method MountNext(l: DList<Mount>, dest: Option<string>, aufs: bool, i: Node<Mount>, r: seq<Request>,
                   ghost es: seq<Entry>, ghost k: nat) returns (next: Node?<Mount>, r': seq<Request>)
    requires Walking(l, dest, aufs, es, k, i, r) && k < |es| && Sound(es[k])
    modifies Payload(l.nodes)
    ensures Walking(l, dest, aufs, es, k + 1, next, r')
  {
    var one := MountOne(i.val, dest, aufs);
    IssuedNext(dest, es, k, aufs);
    r' := r + one;
    next := i.next;
  }

  /** The traversal: every entry is put to work once, in order. */
  method MountAll(l: DList<Mount>, dest: Option<string>, aufs: bool, ghost es: seq<Entry>) returns (r: seq<Request>)
    requires l.Valid() && WorkedTo(l.nodes, dest, es, 0, aufs) && AllSound(es)
    modifies Payload(l.nodes)
    ensures r == IssuedAll(dest, es, aufs) && WorkedTo(l.nodes, dest, es, |es|, aufs)
  {
    r := [];
    var i := l.head;
    ghost var k := 0;
    while i != null
      invariant Walking(l, dest, aufs, es, k, i, r)
      decreases |es| - k
    {
      i, r := MountNext(l, dest, aufs, i, r, es, k);
      k := k + 1;
    }
    assert es[..k] == es;
  }

  lemma {:induction false} IssuedNext(dest: Option<string>, es: seq<Entry>, k: nat, aufs: bool)
    requires k < |es|
    ensures IssuedAll(dest, es[..k + 1], aufs) == IssuedAll(dest, es[..k], aufs) + Issued(dest, es[k], aufs)
  {
    assert es[..k + 1][..k] == es[..k];
  }

  lemma {:induction false} OwnConcat(a: seq<Node<Mount>>, b: seq<Node<Mount>>)
    requires OwnPayload(a) && OwnPayload(b) && Payload(a) !! Payload(b)
    ensures OwnPayload(a + b)
  {
    var v := a + b;
    forall i, j | 0 <= i < j < |v| ensures v[i].val != v[j].val {
      if i < |a| <= j {
        assert v[i].val in Payload(a) && v[j].val in Payload(b);
      }
    }
  }

  lemma {:induction false} ViewsConcat(a: seq<Node<Mount>>, b: seq<Node<Mount>>)
    ensures Views(a + b) == Views(a) + Views(b)
  {}

  /** The user's list becomes the end of the list of the system mounts. */
  method TakeIn(l: DList<Mount>, mounts: DList<Mount>, ghost all: seq<Node<Mount>>, ghost sys: seq<Entry>)
    requires l.Valid() && l.nodes == all && Views(all) == sys && mounts.Valid() && l != mounts
    requires Disjoint(all, mounts.nodes)
    modifies l, all, mounts.nodes
    ensures l.Valid() && l.nodes == all + old(mounts.nodes)
    ensures Views(l.nodes) == sys + old(Views(mounts.nodes))
  {
    ghost var user := mounts.nodes;
    l.Concat(mounts);
    ViewsConcat(all, user);
  }

  method SystemList(dest: Option<string>, ephemeral: Option<string>)
      returns (l: DList<Mount>, ghost all: seq<Node<Mount>>)
    ensures fresh(l) && fresh(all) && (forall n | n in all :: fresh(n.val))
    ensures Grown(l, [], all, SystemEntries(dest, ephemeral))
  {
    l := new DList();
    all := [];
    if dest.Some? {
      all := MountAddEach(l, SystemEntries(dest, ephemeral));
    }
  }

  /** The calls of setup_mount before it comes to its list. */
  method Prepare(dest: Option<string>, ephemeral: Option<string>) returns (r: seq<Request>)
    ensures r == Preparation(dest, ephemeral)
  {
    r := [MountCall(None, "/", None, {Slave, Rec}, None)];
    if dest.Some? && ephemeral.Some? {
      r := r + [MountCall(Some("tmpfs"), ephemeral.value, Some("tmpfs"), {}, None)];
      r := r + [MakeDir(PrefixRoot(ephemeral, "root"))];
      r := r + [MakeDir(PrefixRoot(ephemeral, "work"))];
    }
  }

  /** The lists of setup_mount: the system mounts take in those of the user, and the list is worked off. */
  method MountLists(mounts: DList<Mount>, dest: Option<string>, ephemeral: Option<string>, aufs: bool,
                    ghost sys: seq<Entry>) returns (r: seq<Request>)
    requires mounts.Valid() && OwnPayload(mounts.nodes) && AllSound(Views(mounts.nodes))
    requires sys == SystemEntries(dest, ephemeral)
    modifies mounts.nodes, Payload(mounts.nodes)
    ensures r == IssuedAll(dest, sys + old(Views(mounts.nodes)), aufs)
  {
    ghost var user, all := Views(mounts.nodes), [];
    var l;
    l, all := SystemList(dest, ephemeral);
    assert [] + all == all;
    OwnConcat(all, mounts.nodes);
    TakeIn(l, mounts, all, sys);
    SystemSound(dest, ephemeral);
    SoundConcat(sys, user);
    Unworked(l.nodes, dest, aufs);
    r := MountAll(l, dest, aufs, sys + user);
  }

  /**
   * setup_mount: the requests in the order made, for calls that all succeed; a call that fails ends the process, so
   * that a prefix of them is made. The list of the system mounts takes in that of the user and is worked off.
   */
  method SetupMount(mounts: DList<Mount>, dest: Option<string>, ephemeral: Option<string>, aufs: bool)
      returns (r: seq<Request>)
    requires mounts.Valid() && OwnPayload(mounts.nodes) && AllSound(Views(mounts.nodes))
    modifies mounts.nodes, Payload(mounts.nodes)
    ensures r == Requests(dest, ephemeral, old(Views(mounts.nodes)), aufs)
  {
    r := Prepare(dest, ephemeral);
    var rest := MountLists(mounts, dest, ephemeral, aufs, SystemEntries(dest, ephemeral));
    r := r + rest;
  }

  /** From the command line to the kernel: the list that main fills is the one setup_mount gets in the child. */
  method MountsOfRun(specs: seq<string>, dest: Option<string>, ephemeral: Option<string>, aufs: bool)
      returns (r: Outcome, n: nat, requests: seq<Request>)
    requires forall k | 0 <= k < |specs| :: '\0' !in specs[k]
    ensures n <= |specs| && Accepted(specs[..n])
    ensures if r == Goes then n == |specs| else n < |specs| && r == SpecOutcome(specs[n])
    ensures requests == if r == Goes then Requests(dest, ephemeral, UserEntries(specs[..n]), aufs) else []
  {
    var mounts := new DList();
    ghost var added;
    r, n, added := AddMounts(mounts, specs);
    if r != Goes { return r, n, []; }
    assert [] + added == added;
    UserSound(specs[..n]);
    requests := SetupMount(mounts, dest, ephemeral, aufs);
  }
}

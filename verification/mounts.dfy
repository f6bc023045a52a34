/** What src/mount.c makes of mount specs, and what it asks the kernel for. */
module Mounts {
  import opened Paths
  import opened Places
  import opened Util
  import opened Validate
  import opened Options
  import opened Sequences

  datatype Flag = Bind | Remount | Rdonly | Nosuid | Noexec | Nodev | Strictatime | Slave | Rec

  /** The data of a mount: a text for the kernel, or the two directories an overlay is still to be made of. */
  datatype Data = NoData | Text(text: string) | Layers(overlay: string, workdir: string)

  /** struct mount without its links. */
  datatype Entry = Entry(src: Option<string>, dst: string, kind: string, flags: set<Flag>, data: Data)

  // ---------------------------------------------------------------- mount specs

  /** strncmp(s, p, strlen(p)) == 0 */
  predicate StartsWith(s: string, p: string) { |p| <= |s| && s[..|p|] == p }

  function BindEntry(src: string, dst: string): Entry { Entry(Some(src), dst, "bind", {Bind}, NoData) }

  function ReadOnlyEntry(src: string, dst: string): Entry {
    Entry(Some(src), dst, "bind-ro", {Remount, Bind, Rdonly}, NoData)
  }

  function OverlayEntry(overlay: string, dst: string, workdir: string): Entry {
    Entry(None, dst, "overlay", {}, Layers(overlay, workdir))
  }

  function TmpEntry(dst: string): Entry { Entry(Some("tmpfs"), dst, "tmpfs", {}, NoData) }

  /** What mount_add_from_spec appends for the fields of a spec. The type is compared up to its end, except that
      whatever begins with "bind" is a bind. */
  function SpecEntries(opts: seq<string>): Option<seq<Entry>>
    requires opts != []
  {
    if StartsWith(opts[0], "bind") then
      if |opts| < 3 || !IsAbsolute(opts[1]) || !IsAbsolute(opts[2]) then None
      else if opts[0] == "bind-ro" then Some([BindEntry(opts[1], opts[2]), ReadOnlyEntry(opts[1], opts[2])])
      else Some([BindEntry(opts[1], opts[2])])
    else if opts[0] == "overlay" then
      if |opts| < 4 || !IsAbsolute(opts[1]) || !IsAbsolute(opts[2]) || !IsAbsolute(opts[3]) then None
      else Some([OverlayEntry(opts[1], opts[2], opts[3])])
    else if opts[0] == "tmp" then
      if |opts| < 2 || !IsAbsolute(opts[1]) then None else Some([TmpEntry(opts[1])])
    else None
  }

  /** The documented forms of --mount. */
  datatype Spec =
    | BindSpec(src: string, dst: string)
    | BindRoSpec(src: string, dst: string)
    | OverlaySpec(overlay: string, dst: string, workdir: string)
    | TmpSpec(dst: string)

  function TypeName(x: Spec): string {
    match x
    case BindSpec(_, _) => "bind"
    case BindRoSpec(_, _) => "bind-ro"
    case OverlaySpec(_, _, _) => "overlay"
    case TmpSpec(_) => "tmp"
  }

  function Args(x: Spec): seq<string> {
    match x
    case BindSpec(src, dst) => [src, dst]
    case BindRoSpec(src, dst) => [src, dst]
    case OverlaySpec(overlay, dst, workdir) => [overlay, dst, workdir]
    case TmpSpec(dst) => [dst]
  }

  function Meaning(x: Spec): seq<Entry> {
    match x
    case BindSpec(src, dst) => [BindEntry(src, dst)]
    case BindRoSpec(src, dst) => [BindEntry(src, dst), ReadOnlyEntry(src, dst)]
    case OverlaySpec(overlay, dst, workdir) => [OverlayEntry(overlay, dst, workdir)]
    case TmpSpec(dst) => [TmpEntry(dst)]
  }

  ghost predicate AllAbsolute(paths: seq<string>) {
    forall k | 0 <= k < |paths| :: IsAbsolute(paths[k])
  }

  /** The fields begin with those of `x`; every type that begins with "bind", save "bind-ro", counts as "bind". */
  ghost predicate Says(opts: seq<string>, x: Spec)
    requires opts != []
  {
    && Args(x) <= opts[1..] && AllAbsolute(Args(x))
    && if x.BindSpec? then StartsWith(opts[0], "bind") && opts[0] != "bind-ro" else opts[0] == TypeName(x)
  }

  lemma {:induction false} SaysMeans(opts: seq<string>, x: Spec)
    requires opts != [] && Says(opts, x)
    ensures SpecEntries(opts) == Some(Meaning(x))
  {
    var args := Args(x);
    assert "bind-ro"[..4] == "bind" && "bind"[0] == 'b' && "overlay"[..4][0] == 'o';
    assert forall k | 0 <= k < |args| :: opts[k + 1] == opts[1..][k] == args[k];
    assert opts[1] == args[0] && IsAbsolute(args[0]);
    if !x.TmpSpec? {
      assert opts[2] == args[1] && IsAbsolute(args[1]);
    }
    if x.OverlaySpec? {
      assert opts[3] == args[2] && IsAbsolute(args[2]);
    }
  }

  lemma {:induction false} MeansSays(opts: seq<string>) returns (x: Spec)
    requires opts != [] && SpecEntries(opts).Some?
    ensures Says(opts, x)
  {
    x := if opts[0] == "bind-ro" then BindRoSpec(opts[1], opts[2])
         else if StartsWith(opts[0], "bind") then BindSpec(opts[1], opts[2])
         else if opts[0] == "overlay" then OverlaySpec(opts[1], opts[2], opts[3])
         else TmpSpec(opts[1]);
    assert forall k | 0 <= k < |Args(x)| :: opts[1..][k] == opts[k + 1] == Args(x)[k];
  }

  /** A spec is accepted exactly if it says one of the documented things, with absolute paths, and then it means
      that; fields too many are ignored. */
  lemma {:induction false} SpecMeans(opts: seq<string>, es: seq<Entry>)
    requires opts != []
    ensures SpecEntries(opts) == Some(es) <==> exists x :: Says(opts, x) && es == Meaning(x)
  {
    if SpecEntries(opts) == Some(es) {
      var x := MeansSays(opts);
      SaysMeans(opts, x);
    }
    forall x | Says(opts, x) && es == Meaning(x) ensures SpecEntries(opts) == Some(es) {
      SaysMeans(opts, x);
    }
  }

  /** The type is spelled as documented, its absolute paths follow, and nothing else. */
  ghost predicate Documented(opts: seq<string>, x: Spec)
    requires opts != []
  {
    Args(x) == opts[1..] && AllAbsolute(Args(x)) && opts[0] == TypeName(x)
  }

  ghost predicate ManualSays(opts: seq<string>, es: seq<Entry>)
    requires opts != []
  {
    exists x :: Documented(opts, x) && es == Meaning(x)
  }

  /** Just what the manual describes is accepted, and means what the manual says. */
  ghost predicate FollowsManual(opts: seq<string>)
    requires opts != []
  {
    forall es :: ManualSays(opts, es) <==> SpecEntries(opts) == Some(es)
  }

  /** A type that merely begins with "bind". */
  predicate StrayBind(opts: seq<string>)
    requires opts != []
  {
    StartsWith(opts[0], "bind") && opts[0] != "bind" && opts[0] != "bind-ro"
  }

  /** How many fields the manual gives to a spec of this type. */
  function Arity(kind: string): nat {
    if kind == "overlay" then 4 else if kind == "tmp" then 2 else 3
  }

  lemma {:induction false} ArityIs(x: Spec)
    ensures Arity(TypeName(x)) == |Args(x)| + 1
  {}

  lemma {:induction false} DocumentedSays(opts: seq<string>, x: Spec)
    requires opts != []
    ensures Documented(opts, x) <==> Says(opts, x) && !StrayBind(opts) && |opts| == |Args(x)| + 1
  {
    assert "bind"[0] == 'b' && "overlay"[..4][0] == 'o' && "bind-ro"[..4] == "bind" && "bind"[..4] == "bind";
    if |opts| == |Args(x)| + 1 && Args(x) <= opts[1..] {
      assert Args(x) == opts[1..];
    }
  }

  lemma {:induction false} SaysArity(opts: seq<string>, x: Spec)
    requires opts != [] && Says(opts, x)
    ensures |opts| >= |Args(x)| + 1 && Arity(opts[0]) == |Args(x)| + 1
  {
    ArityIs(x);
    assert "bind"[0] == 'b' && "overlay"[0] == 'o' && "tmp"[0] == 't';
    if x.BindSpec? {
      assert opts[0][..4][0] == opts[0][0];
    }
  }

  /** Exactly when the code departs from the manual on a list of fields: it accepts one whose type only begins with
      "bind", or one with fields too many. */
  lemma {:induction false} ManualFollowedExactly(opts: seq<string>)
    requires opts != []
    ensures FollowsManual(opts) <==> !(SpecEntries(opts).Some? && (StrayBind(opts) || |opts| > Arity(opts[0])))
  {
    forall x ensures Documented(opts, x) <==> Says(opts, x) && !StrayBind(opts) && |opts| <= Arity(opts[0]) {
      DocumentedSays(opts, x);
      if Says(opts, x) {
        SaysArity(opts, x);
      }
    }
    forall x | Says(opts, x) ensures SpecEntries(opts) == Some(Meaning(x)) {
      SaysMeans(opts, x);
    }
    if SpecEntries(opts).Some? {
      var x := MeansSays(opts);
      if !StrayBind(opts) && |opts| <= Arity(opts[0]) {
        assert Documented(opts, x) && ManualSays(opts, Meaning(x));
      } else {
        assert !ManualSays(opts, SpecEntries(opts).value);
      }
    }
  }

  ghost predicate AcceptedSpec(spec: string) {
    Fields(spec, ":") != [] && SpecEntries(Fields(spec, ":")).Some?
  }

  ghost function EntriesOf(spec: string): seq<Entry>
    requires AcceptedSpec(spec)
  {
    SpecEntries(Fields(spec, ":")).value
  }

  /** The text of a documented spec, whose paths have no colon. */
  ghost predicate IsText(spec: string, x: Spec) {
    && spec == Join([TypeName(x)] + Args(x), ':') && AllAbsolute(Args(x))
    && forall k | 0 <= k < |Args(x)| :: ':' !in Args(x)[k]
  }

  ghost predicate ManualReads(spec: string, es: seq<Entry>) {
    exists x :: IsText(spec, x) && es == Meaning(x)
  }

  /** What becomes of the text of a spec. */
  ghost predicate CodeReads(spec: string, es: seq<Entry>) {
    AcceptedSpec(spec) && es == EntriesOf(spec)
  }

  ghost predicate TextFollowsManual(spec: string) {
    forall es :: ManualReads(spec, es) <==> CodeReads(spec, es)
  }

  lemma {:induction false} TextFields(spec: string, x: Spec)
    ensures IsText(spec, x) <==>
            var f := Fields(spec, ":"); f != [] && spec == Join(f, ':') && Documented(f, x)
  {
    var args, f := Args(x), Fields(spec, ":");
    var fields := [TypeName(x)] + args;
    assert fields[1..] == args && [':'] == ":";
    FieldsPure(spec, ':');
    if IsText(spec, x) {
      forall k | 0 <= k < |fields| ensures fields[k] != [] && ':' !in fields[k] {
        assert k > 0 ==> fields[k] == args[k - 1] && IsAbsolute(args[k - 1]);
      }
      FieldsJoin(fields, ':');
    }
    if f != [] && Documented(f, x) {
      assert f == fields;
      assert forall k | 0 <= k < |args| :: args[k] == f[k + 1];
    }
  }

  /** Exactly when the code departs from the manual on a text: it accepts one whose type only begins with "bind", one
      with fields too many, or one with a colon too many, whose empty field vanishes. */
  lemma {:induction false} TextFollowedExactly(spec: string)
    ensures TextFollowsManual(spec) <==>
            var f := Fields(spec, ":");
            !(AcceptedSpec(spec) && (StrayBind(f) || |f| > Arity(f[0]) || spec != Join(f, ':')))
  {
    var f := Fields(spec, ":");
    forall x ensures IsText(spec, x) <==> f != [] && spec == Join(f, ':') && Documented(f, x) {
      TextFields(spec, x);
    }
    if f != [] {
      ManualFollowedExactly(f);
      forall es ensures ManualReads(spec, es) <==> spec == Join(f, ':') && ManualSays(f, es) {}
      forall es ensures CodeReads(spec, es) <==> SpecEntries(f) == Some(es) {}
      if AcceptedSpec(spec) && spec != Join(f, ':') {
        assert !ManualReads(spec, EntriesOf(spec)) && CodeReads(spec, EntriesOf(spec));
      }
      if spec == Join(f, ':') {
        FollowsEither(spec, f);
      }
    }
  }

  lemma {:induction false} FollowsEither(spec: string, f: seq<string>)
    requires f != []
    requires forall es :: ManualReads(spec, es) <==> ManualSays(f, es)
    requires forall es :: CodeReads(spec, es) <==> SpecEntries(f) == Some(es)
    ensures TextFollowsManual(spec) <==> FollowsManual(f)
  {
    if TextFollowsManual(spec) {
      forall es ensures ManualSays(f, es) <==> SpecEntries(f) == Some(es) {
        assert ManualReads(spec, es) <==> CodeReads(spec, es);
      }
    }
    if FollowsManual(f) {
      forall es ensures ManualReads(spec, es) <==> CodeReads(spec, es) {
        assert ManualSays(f, es) <==> SpecEntries(f) == Some(es);
      }
    }
  }

  /** A field too many is dropped without a word. */
  lemma {:induction false} ExtraFieldDropped()
    ensures SpecEntries(["bind", "/a", "/b", "junk"]) == Some([BindEntry("/a", "/b")])
  {
    assert "bind"[..4] == "bind";
  }

  /** So is an empty one: bind::/a:/b is read like bind:/a:/b. */
  lemma {:induction false} EmptyFieldVanishes(spec: string, twin: string)
    requires spec == "bind::/a:/b" && twin == "bind:/a:/b"
    ensures Fields(spec, ":") == Fields(twin, ":")
  {
    DoubledNeedle("bind", ':', "/a:/b", ":");
    assert spec == "bind" + [':'] + ([':'] + "/a:/b") && twin == "bind" + [':'] + "/a:/b";
  }

  /** The undocumented type bindx is taken for bind. */
  lemma {:induction false} StrayBindAccepted()
    ensures SpecEntries(["bindx", "/a", "/b"]) == Some([BindEntry("/a", "/b")])
  {}

  /** A documented spec with absolute paths is read back from its text, provided that no path has a colon. */
  lemma {:induction false} SpecRoundTrip(x: Spec)
    requires AllAbsolute(Args(x)) && forall k | 0 <= k < |Args(x)| :: ':' !in Args(x)[k]
    ensures var opts := Fields(Join([TypeName(x)] + Args(x), ':'), ":");
            opts != [] && SpecEntries(opts) == Some(Meaning(x))
  {
    var args, fields := Args(x), [TypeName(x)] + Args(x);
    forall k | 0 <= k < |fields| ensures fields[k] != [] && ':' !in fields[k] {
      assert k > 0 ==> fields[k] == args[k - 1] && IsAbsolute(args[k - 1]);
    }
    FieldsJoin(fields, ':');
    assert [':'] == ":" && fields[1..] == args;
    SaysMeans(fields, x);
  }

  // ---------------------------------------------------------------- all entries of a run

  /** How mount_add_from_spec ends: without a field the type it compares is a NULL pointer. */
  function SpecOutcome(spec: string): Outcome {
    if Fields(spec, ":") == [] then NullRead else if SpecEntries(Fields(spec, ":")).None? then Refused else Goes
  }

  /** The --mount options get through. */
  ghost predicate Accepted(specs: seq<string>) {
    forall k | 0 <= k < |specs| :: AcceptedSpec(specs[k])
  }

  ghost function UserEntries(specs: seq<string>): seq<Entry>
    requires Accepted(specs)
  {
    if specs == [] then [] else UserEntries(specs[..|specs| - 1]) + EntriesOf(specs[|specs| - 1])
  }

  function ProcEntries(dest: string): seq<Entry> {
    [Entry(Some("proc"), "/proc", "proc", {Nosuid, Noexec, Nodev}, NoData),
     Entry(Some(PrefixRoot(Some(dest), "/proc/sys")), "/proc/sys", "proc/sys", {Bind}, NoData),
     Entry(None, "/proc/sys", "proc/sys-ro", {Bind, Rdonly, Remount}, NoData)]
  }

  function DevEntries(): seq<Entry> {
    [Entry(Some("sysfs"), "/sys", "sysfs", {Nosuid, Noexec, Nodev, Rdonly}, NoData),
     Entry(Some("tmpfs"), "/dev", "tmpfs", {Nosuid, Strictatime}, Text("mode=755")),
     Entry(Some("devpts"), "/dev/pts", "devpts", {Nosuid, Noexec}, Text("newinstance,ptmxmode=0666,mode=0620,gid=5"))]
  }

  function RunEntries(): seq<Entry> {
    [Entry(Some("tmpfs"), "/dev/shm", "tmpfs", {Nosuid, Strictatime, Nodev}, Text("mode=1777")),
     Entry(Some("tmpfs"), "/run", "tmpfs", {Nosuid, Nodev, Strictatime}, Text("mode=755")),
     Entry(Some("cgroup"), "/sys/fs/cgroup", "cgroup2", {Nosuid, Nodev, Noexec}, NoData)]
  }

  function EphemeralEntries(ephemeral: Option<string>): seq<Entry> {
    if ephemeral.None? then []
    else [OverlayEntry(PrefixRoot(ephemeral, "root"), "/", PrefixRoot(ephemeral, "work"))]
  }

  /** What setup_mount mounts on its own in a new root `dest`. */
  function SystemEntries(dest: Option<string>, ephemeral: Option<string>): seq<Entry> {
    if dest.None? then []
    else EphemeralEntries(ephemeral) + ProcEntries(dest.value) + DevEntries() + RunEntries()
  }

  // ---------------------------------------------------------------- requests

  /** A call of mount, of mkdir, and what make_bind_dest does to have a target of the kind of the source. */
  datatype Request =
    | MountCall(src: Option<string>, target: string, kind: Option<string>, flags: set<Flag>, data: Option<string>)
    | MakeDir(path: string)
    | MakeBindDest(source: string, path: string)

  predicate IsBind(kind: string) { kind == "bind" || kind == "bind-ro" }

  /** make_overlay_opts, for aufs or for overlayfs */
  function OverlayText(overlay: string, workdir: string, target: string, aufs: bool): string {
    if aufs then "br:" + overlay + "=rw:" + target + "=ro"
    else "upperdir=" + overlay + ",lowerdir=" + target + ",workdir=" + workdir
  }

  /** What mount_add guarantees about an entry: binds have a source, overlays and only they have their layers. */
  ghost predicate Sound(e: Entry) {
    && (IsBind(e.kind) ==> e.src.Some?)
    && (e.kind == "overlay" <==> e.data.Layers?)
  }

  ghost predicate AllSound(v: seq<Entry>) {
    forall k | 0 <= k < |v| :: Sound(v[k])
  }

  function DataFor(e: Entry, target: string, aufs: bool): Data {
    if e.data.Layers? then Text(OverlayText(e.data.overlay, e.data.workdir, target, aufs)) else e.data
  }

  function AsText(d: Data): Option<string> { if d.Text? then Some(d.text) else None }

  /** An entry at work: its target is made, then it is mounted there. */
  function Issued(dest: Option<string>, e: Entry, aufs: bool): seq<Request> {
    var target := PrefixRoot(dest, e.dst);
    [if IsBind(e.kind) && e.src.Some? then MakeBindDest(e.src.value, target) else MakeDir(target),
     MountCall(e.src, target, Some(e.kind), e.flags, AsText(DataFor(e, target, aufs)))]
  }

  function IssuedAll(dest: Option<string>, v: seq<Entry>, aufs: bool): (r: seq<Request>)
    ensures |r| == 2 * |v|
  {
    if v == [] then [] else IssuedAll(dest, v[..|v| - 1], aufs) + Issued(dest, v[|v| - 1], aufs)
  }

  /** What setup_mount asks for before it comes to its list. */
  function Preparation(dest: Option<string>, ephemeral: Option<string>): seq<Request> {
    [MountCall(None, "/", None, {Slave, Rec}, None)] +
    if dest.None? || ephemeral.None? then [] else
      [MountCall(Some("tmpfs"), ephemeral.value, Some("tmpfs"), {}, None),
       MakeDir(PrefixRoot(ephemeral, "root")), MakeDir(PrefixRoot(ephemeral, "work"))]
  }

  /** All requests of setup_mount for the entries of the --mount options. */
  function Requests(dest: Option<string>, ephemeral: Option<string>, user: seq<Entry>, aufs: bool): seq<Request> {
    Preparation(dest, ephemeral) + IssuedAll(dest, SystemEntries(dest, ephemeral) + user, aufs)
  }

  lemma {:induction false} SoundConcat(a: seq<Entry>, b: seq<Entry>)
    requires AllSound(a) && AllSound(b)
    ensures AllSound(a + b)
  {}

  lemma {:induction false} ProcSound(dest: string)
    ensures AllSound(ProcEntries(dest))
  {}

  lemma {:induction false} DevSound()
    ensures AllSound(DevEntries())
  {}

  lemma {:induction false} RunSound()
    ensures AllSound(RunEntries())
  {}

  lemma {:induction false} SystemSound(dest: Option<string>, ephemeral: Option<string>)
    ensures AllSound(SystemEntries(dest, ephemeral))
  {
    if dest.Some? {
      var e, p := EphemeralEntries(ephemeral), ProcEntries(dest.value);
      ProcSound(dest.value);
      DevSound();
      RunSound();
      SoundConcat(e, p);
      SoundConcat(e + p, DevEntries());
      SoundConcat(e + p + DevEntries(), RunEntries());
    }
  }

  lemma {:induction false} MeaningSound(x: Spec)
    ensures AllSound(Meaning(x))
  {}

  lemma {:induction false} UserSound(specs: seq<string>)
    requires Accepted(specs)
    ensures AllSound(UserEntries(specs))
  {
    if specs != [] {
      var spec := specs[|specs| - 1];
      UserSound(specs[..|specs| - 1]);
      var x := MeansSays(Fields(spec, ":"));
      SaysMeans(Fields(spec, ":"), x);
      MeaningSound(x);
    }
  }

  // ---------------------------------------------------------------- what holds of the requests

  lemma {:induction false} IssuedMore(dest: Option<string>, v: seq<Entry>, e: Entry, aufs: bool, all: seq<Entry>)
    requires all == v + [e]
    ensures IssuedAll(dest, all, aufs) == IssuedAll(dest, v, aufs) + Issued(dest, e, aufs)
  {
    assert all[..|all| - 1] == v && all[|all| - 1] == e;
  }

  lemma {:induction false} IssuedConcat(dest: Option<string>, a: seq<Entry>, b: seq<Entry>, aufs: bool)
    ensures IssuedAll(dest, a + b, aufs) == IssuedAll(dest, a, aufs) + IssuedAll(dest, b, aufs)
    decreases |b|
  {
    if b == [] {
      assert a + b == a;
    } else {
      var most, last := b[..|b| - 1], b[|b| - 1];
      IssuedConcat(dest, a, most, aufs);
      IssuedMore(dest, most, last, aufs, b);
      IssuedMore(dest, a + most, last, aufs, a + b);
      Assoc(IssuedAll(dest, a, aufs), IssuedAll(dest, most, aufs), Issued(dest, last, aufs));
    }
  }

  lemma {:induction false} IssuedAt(dest: Option<string>, v: seq<Entry>, aufs: bool, k: nat)
    requires k < |v|
    ensures var r, one := IssuedAll(dest, v, aufs), Issued(dest, v[k], aufs);
            r[2 * k] == one[0] && r[2 * k + 1] == one[1]
    decreases |v|
  {
    if k < |v| - 1 {
      IssuedAt(dest, v[..|v| - 1], aufs, k);
    }
  }

  /** One more --mount option adds its own requests behind those of the options before it, and changes nothing else. */
  lemma {:induction false} SpecOrder(dest: Option<string>, ephemeral: Option<string>, specs: seq<string>,
                                     spec: string, aufs: bool)
    requires Accepted(specs) && AcceptedSpec(spec)
    ensures Accepted(specs + [spec])
    ensures Requests(dest, ephemeral, UserEntries(specs + [spec]), aufs) ==
            Requests(dest, ephemeral, UserEntries(specs), aufs) + IssuedAll(dest, EntriesOf(spec), aufs)
  {
    assert (specs + [spec])[..|specs|] == specs;
    var pre, sys := Preparation(dest, ephemeral), SystemEntries(dest, ephemeral);
    AddedBehind(pre, dest, sys, UserEntries(specs), EntriesOf(spec), aufs);
  }

  lemma {:induction false} AddedBehind(pre: seq<Request>, dest: Option<string>, a: seq<Entry>, b: seq<Entry>,
                                       c: seq<Entry>, aufs: bool)
    ensures pre + IssuedAll(dest, a + (b + c), aufs) == pre + IssuedAll(dest, a + b, aufs) + IssuedAll(dest, c, aufs)
  {
    assert a + (b + c) == a + b + c;
    IssuedConcat(dest, a + b, c, aufs);
    Assoc(pre, IssuedAll(dest, a + b, aufs), IssuedAll(dest, c, aufs));
  }

  /** A remount has, just in front of it, the bind of the same source at the same place. */
  ghost predicate RemountsFollow(v: seq<Entry>) {
    forall k | 0 <= k < |v| && (Remount in v[k].flags || v[k].kind == "bind-ro") ::
      k > 0 && Follows(v[k - 1], v[k])
  }

  ghost predicate Follows(a: Entry, b: Entry) {
    && a.flags == {Bind} && b.flags == {Remount, Bind, Rdonly} && a.dst == b.dst
    && (b.kind == "bind-ro" ==> a.kind == "bind" && a.src == b.src)
  }

  lemma {:induction false} RemountsFollowConcat(a: seq<Entry>, b: seq<Entry>)
    requires RemountsFollow(a) && RemountsFollow(b)
    ensures RemountsFollow(a + b)
  {
    var v := a + b;
    forall k | 0 <= k < |v| && (Remount in v[k].flags || v[k].kind == "bind-ro")
      ensures k > 0 && Follows(v[k - 1], v[k])
    {
      if k >= |a| {
        assert v[k] == b[k - |a|];
        assert v[k - 1] == b[k - |a| - 1];
      }
    }
  }

  lemma {:induction false} MeaningFollows(x: Spec)
    ensures RemountsFollow(Meaning(x))
  {}

  lemma {:induction false} UserRemountsFollow(specs: seq<string>)
    requires Accepted(specs)
    ensures RemountsFollow(UserEntries(specs))
  {
    if specs != [] {
      var spec := specs[|specs| - 1];
      UserRemountsFollow(specs[..|specs| - 1]);
      var x := MeansSays(Fields(spec, ":"));
      SaysMeans(Fields(spec, ":"), x);
      MeaningFollows(x);
      RemountsFollowConcat(UserEntries(specs[..|specs| - 1]), EntriesOf(spec));
    }
  }

  lemma {:induction false} ProcFollows(dest: string)
    ensures RemountsFollow(ProcEntries(dest))
  {
    var p := ProcEntries(dest);
    assert Follows(p[1], p[2]);
  }

  lemma {:induction false} DevFollows()
    ensures RemountsFollow(DevEntries())
  {}

  lemma {:induction false} RunFollows()
    ensures RemountsFollow(RunEntries())
  {}

  lemma {:induction false} SystemRemountsFollow(dest: Option<string>, ephemeral: Option<string>)
    ensures RemountsFollow(SystemEntries(dest, ephemeral))
  {
    if dest.Some? {
      var e, p := EphemeralEntries(ephemeral), ProcEntries(dest.value);
      ProcFollows(dest.value);
      DevFollows();
      RunFollows();
      RemountsFollowConcat(e, p);
      RemountsFollowConcat(e + p, DevEntries());
      RemountsFollowConcat(e + p + DevEntries(), RunEntries());
    }
  }

  /**
   * Whatever the options: each remount makes read-only what the mount call before it has bound, at the same target,
   * with no other mount between the two; and a mount of type bind-ro is always such a remount of its own source.
   */
  lemma {:induction false} RemountsAreReadOnlyBinds(dest: Option<string>, ephemeral: Option<string>,
                                                    specs: seq<string>, aufs: bool, i: nat)
    requires Accepted(specs)
    requires var r := Requests(dest, ephemeral, UserEntries(specs), aufs);
             i < |r| && r[i].MountCall? && (Remount in r[i].flags || r[i].kind == Some("bind-ro"))
    ensures var r := Requests(dest, ephemeral, UserEntries(specs), aufs);
            && i >= 2 && r[i - 2].MountCall? && !r[i - 1].MountCall?
            && r[i].flags == {Remount, Bind, Rdonly} && r[i - 2].flags == {Bind} && r[i - 2].target == r[i].target
            && (r[i].kind == Some("bind-ro") ==> r[i - 2].kind == Some("bind") && r[i - 2].src == r[i].src)
  {
    var pre, sys, user := Preparation(dest, ephemeral), SystemEntries(dest, ephemeral), UserEntries(specs);
    UserRemountsFollow(specs);
    SystemRemountsFollow(dest, ephemeral);
    RemountsFollowConcat(sys, user);
    NoRemountFirst(dest, ephemeral);
    RemountAt(pre, dest, sys + user, aufs, pre + IssuedAll(dest, sys + user, aufs), i);
  }

  ghost predicate Plain(r: seq<Request>) {
    forall j | 0 <= j < |r| && r[j].MountCall? :: Remount !in r[j].flags && r[j].kind != Some("bind-ro")
  }

  lemma {:induction false} NoRemountFirst(dest: Option<string>, ephemeral: Option<string>)
    ensures Plain(Preparation(dest, ephemeral))
  {
    assert "tmpfs" != "bind-ro";
  }

  /** Behind the preparation a mount call belongs to an entry, and so do its neighbours. */
  lemma {:induction false} CallAt(pre: seq<Request>, dest: Option<string>, v: seq<Entry>, aufs: bool, r: seq<Request>,
                                  i: nat)
      returns (k: nat)
    requires r == pre + IssuedAll(dest, v, aufs) && |pre| <= i < |r| && r[i].MountCall?
    ensures k < |v| && i == |pre| + 2 * k + 1
    ensures r[i] == Issued(dest, v[k], aufs)[1] && r[i - 1] == Issued(dest, v[k], aufs)[0]
    ensures k > 0 ==> r[i - 2] == Issued(dest, v[k - 1], aufs)[1]
  {
    k := (i - |pre|) / 2;
    var all := IssuedAll(dest, v, aufs);
    IssuedAt(dest, v, aufs, k);
    assert r[|pre| + 2 * k] == all[2 * k];
    assert r[i] == all[2 * k + 1] && r[i - 1] == all[2 * k];
    if k > 0 {
      IssuedAt(dest, v, aufs, k - 1);
      assert r[i - 2] == all[2 * (k - 1) + 1];
    }
  }

  lemma {:induction false} RemountAt(pre: seq<Request>, dest: Option<string>, v: seq<Entry>, aufs: bool,
                                     r: seq<Request>, i: nat)
    requires r == pre + IssuedAll(dest, v, aufs) && RemountsFollow(v)
    requires Plain(pre)
    requires i < |r| && r[i].MountCall? && (Remount in r[i].flags || r[i].kind == Some("bind-ro"))
    ensures && i >= 2 && r[i - 2].MountCall? && !r[i - 1].MountCall?
            && r[i].flags == {Remount, Bind, Rdonly} && r[i - 2].flags == {Bind} && r[i - 2].target == r[i].target
            && (r[i].kind == Some("bind-ro") ==> r[i - 2].kind == Some("bind") && r[i - 2].src == r[i].src)
  {
    assert r[..|pre|] == pre;
    assert i >= |pre|;
    var k := CallAt(pre, dest, v, aufs, r, i);
    assert Remount in v[k].flags || v[k].kind == "bind-ro";
    assert Follows(v[k - 1], v[k]);
  }

  /** With a new root, the name of every target after the preparation begins with that of the root. */
  lemma {:induction false} TargetsBegin(dest: string, ephemeral: Option<string>, user: seq<Entry>, aufs: bool, i: nat)
    requires |Preparation(Some(dest), ephemeral)| <= i < |Requests(Some(dest), ephemeral, user, aufs)|
    requires Requests(Some(dest), ephemeral, user, aufs)[i].MountCall?
    ensures Names(dest) <= Names(Requests(Some(dest), ephemeral, user, aufs)[i].target)
  {
    var v := SystemEntries(Some(dest), ephemeral) + user;
    var r := Requests(Some(dest), ephemeral, user, aufs);
    var k := CallAt(Preparation(Some(dest), ephemeral), Some(dest), v, aufs, r, i);
    PrefixInside(dest, v[k].dst);
  }

  /** The destinations of all accepted specs are absolute. */
  lemma {:induction false} UserAbsolute(specs: seq<string>)
    requires Accepted(specs)
    ensures AbsoluteDst(UserEntries(specs))
  {
    if specs != [] {
      var spec := specs[|specs| - 1];
      UserAbsolute(specs[..|specs| - 1]);
      var x := MeansSays(Fields(spec, ":"));
      SaysMeans(Fields(spec, ":"), x);
      MeaningAbsolute(x);
    }
  }

  lemma {:induction false} MeaningAbsolute(x: Spec)
    requires AllAbsolute(Args(x))
    ensures forall k | 0 <= k < |Meaning(x)| :: IsAbsolute(Meaning(x)[k].dst)
  {
    assert x.TmpSpec? ==> IsAbsolute(Args(x)[0]);
    assert !x.TmpSpec? ==> IsAbsolute(Args(x)[1]);
  }

  /** Absolute destinations without dots. */
  ghost predicate Dotless(v: seq<Entry>) {
    forall k | 0 <= k < |v| :: IsAbsolute(v[k].dst) && '.' !in v[k].dst
  }

  lemma {:induction false} DotlessConcat(a: seq<Entry>, b: seq<Entry>)
    requires Dotless(a) && Dotless(b)
    ensures Dotless(a + b)
  {}

  lemma {:induction false} ProcDotless(dest: string)
    ensures Dotless(ProcEntries(dest))
  {}

  lemma {:induction false} DevDotless()
    ensures Dotless(DevEntries())
  {}

  lemma {:induction false} RunDotless()
    ensures Dotless(RunEntries())
  {}

  lemma {:induction false} SystemDotless(dest: string, ephemeral: Option<string>)
    ensures Dotless(SystemEntries(Some(dest), ephemeral))
  {
    var e, p := EphemeralEntries(ephemeral), ProcEntries(dest);
    ProcDotless(dest);
    DevDotless();
    RunDotless();
    DotlessConcat(e, p);
    DotlessConcat(e + p, DevEntries());
    DotlessConcat(e + p + DevEntries(), RunEntries());
  }

  /** The system mounts lead inside every root that is one. */
  lemma {:induction false} SystemStays(cwd: seq<string>, dest: string, ephemeral: Option<string>, k: nat)
    requires dest != [] && k < |SystemEntries(Some(dest), ephemeral)|
    ensures Stays(cwd, dest, SystemEntries(Some(dest), ephemeral)[k].dst)
  {
    SystemDotless(dest, ephemeral);
    NoDotsStays(cwd, dest, SystemEntries(Some(dest), ephemeral)[k].dst);
  }

  ghost predicate AbsoluteDst(v: seq<Entry>) {
    forall k | 0 <= k < |v| :: IsAbsolute(v[k].dst)
  }

  lemma {:induction false} AbsoluteConcat(a: seq<Entry>, b: seq<Entry>)
    requires Dotless(a) && AbsoluteDst(b)
    ensures AbsoluteDst(a + b)
  {}

  /** All destinations that setup_mount works with are absolute. */
  lemma {:induction false} SetupAbsolute(dest: string, ephemeral: Option<string>, specs: seq<string>)
    requires Accepted(specs)
    ensures AbsoluteDst(SystemEntries(Some(dest), ephemeral) + UserEntries(specs))
  {
    SystemDotless(dest, ephemeral);
    UserAbsolute(specs);
    AbsoluteConcat(SystemEntries(Some(dest), ephemeral), UserEntries(specs));
  }

  /**
   * With a new root, whatever the entries `v` behind the preparation `pre`: a mount call for an entry leads to the
   * root or below it exactly if the destination of the entry stays, that is, if it does not climb out of the root by
   * its "..", or comes back the same way.
   */
  lemma {:induction false} TargetsInside(cwd: seq<string>, dest: string, pre: seq<Request>, v: seq<Entry>, aufs: bool,
                                         r: seq<Request>, i: nat)
    requires r == pre + IssuedAll(Some(dest), v, aufs) && |pre| <= i < |r| && r[i].MountCall? && AbsoluteDst(v)
    ensures var k := (i - |pre|) / 2;
            && k < |v| && r[i].target == PrefixRoot(Some(dest), v[k].dst)
            && (LeadsInside(cwd, dest, r[i].target) <==> Stays(cwd, dest, v[k].dst))
  {
    var k := CallAt(pre, Some(dest), v, aufs, r, i);
    InsideExactly(cwd, dest, v[k].dst);
  }

  /** A bind mount to /../b is accepted, and under the root /r it lands on /b. */
  lemma {:induction false} DotsEscapeRoot(cwd: seq<string>, root: string, dst: string)
    requires root == "/r" && dst == "/../b"
    ensures SpecEntries(["bind", "/a", dst]) == Some([BindEntry("/a", dst)])
    ensures Where(cwd, root) == ["r"] && Where(cwd, PrefixRoot(Some(root), dst)) == ["b"] && !Stays(cwd, root, dst)
  {
    assert "bind"[..4] == "bind";
    DotsEscape(cwd, root, dst);
    InsideExactly(cwd, root, dst);
    assert "r"[0] != "b"[0];
    assert ["r"][0] != ["b"][0];
  }

  lemma {:induction false} PrefixInside(root: string, path: string)
    ensures Names(root) <= Names(PrefixRoot(Some(root), path))
  {
    if Unchanged(Some(root), path) {
      PrefixUnchanged(Some(root), path);
      UnchangedMeans(Some(root), path);
    } else {
      PrefixAppends(Some(root), path);
    }
  }
}

/** The requests of src/mount.c spelled out: what each documented spec and each system mount comes to. */
module MountRequests {
  import opened Paths
  import opened Util
  import opened Validate
  import opened Mounts
  import opened Options
  import opened Sequences

  // ---------------------------------------------------------------- specs

  /** A path that can stand in a spec. */
  predicate Speakable(p: string) { IsAbsolute(p) && ':' !in p }

  /** Whatever specs come before it, the spec gets through and adds these requests behind all others. */
  ghost predicate Adds(dest: Option<string>, ephemeral: Option<string>, specs: seq<string>, spec: string, aufs: bool,
                       added: seq<Request>)
  {
    && Accepted(specs) && Accepted(specs + [spec])
    && Requests(dest, ephemeral, UserEntries(specs + [spec]), aufs) ==
       Requests(dest, ephemeral, UserEntries(specs), aufs) + added
  }

  lemma {:induction false} TextAccepted(spec: string, x: Spec)
    requires spec == Join([TypeName(x)] + Args(x), ':')
    requires forall k | 0 <= k < |Args(x)| :: Speakable(Args(x)[k])
    ensures AcceptedSpec(spec) && EntriesOf(spec) == Meaning(x)
  {
    SpecRoundTrip(x);
  }

  lemma {:induction false} TextAdds(dest: Option<string>, ephemeral: Option<string>, specs: seq<string>, spec: string,
                                    aufs: bool, fields: seq<string>, x: Spec, added: seq<Request>)
    requires Accepted(specs) && spec == Join(fields, ':') && fields == [TypeName(x)] + Args(x)
    requires forall k | 0 <= k < |Args(x)| :: Speakable(Args(x)[k])
    requires IssuedAll(dest, Meaning(x), aufs) == added
    ensures Adds(dest, ephemeral, specs, spec, aufs, added)
  {
    TextAccepted(spec, x);
    SpecOrder(dest, ephemeral, specs, spec, aufs);
  }

  lemma {:induction false} JoinTwo(a: string, b: string)
    ensures Join([a, b], ':') == a + ":" + b
  {
    assert [a, b][1..] == [b];
  }

  lemma {:induction false} JoinThree(a: string, b: string, c: string)
    ensures Join([a, b, c], ':') == a + ":" + b + ":" + c
  {
    JoinTwo(b, c);
    assert [a, b, c][1..] == [b, c];
    Assoc(a + ":", b + ":", c);
  }

  lemma {:induction false} JoinFour(a: string, b: string, c: string, d: string)
    ensures Join([a, b, c, d], ':') == a + ":" + b + ":" + c + ":" + d
  {
    JoinThree(b, c, d);
    assert [a, b, c, d][1..] == [b, c, d];
    Assoc(a + ":", b + ":", c + ":" + d);
    Assoc(a + ":" + b + ":", c + ":", d);
  }

  lemma {:induction false} IssuedOne(dest: Option<string>, e: Entry, aufs: bool)
    ensures IssuedAll(dest, [e], aufs) == Issued(dest, e, aufs)
  {
    IssuedMore(dest, [], e, aufs, [e]);
  }

  lemma {:induction false} IssuedTwo(dest: Option<string>, d: Entry, e: Entry, aufs: bool)
    ensures IssuedAll(dest, [d, e], aufs) == Issued(dest, d, aufs) + Issued(dest, e, aufs)
  {
    IssuedOne(dest, d, aufs);
    IssuedMore(dest, [d], e, aufs, [d, e]);
  }

  /** bind:SRC:DST makes a target for SRC and mounts SRC there. */
  lemma {:induction false} BindAsks(dest: Option<string>, ephemeral: Option<string>, specs: seq<string>, spec: string,
                                    aufs: bool, src: string, dst: string)
    requires Accepted(specs) && spec == "bind:" + src + ":" + dst && Speakable(src) && Speakable(dst)
    ensures var target := PrefixRoot(dest, dst);
            Adds(dest, ephemeral, specs, spec, aufs,
                 [MakeBindDest(src, target), MountCall(Some(src), target, Some("bind"), {Bind}, None)])
  {
    var x := BindSpec(src, dst);
    JoinThree("bind", src, dst);
    IssuedOne(dest, BindEntry(src, dst), aufs);
    TextAdds(dest, ephemeral, specs, spec, aufs, ["bind", src, dst], x, IssuedAll(dest, Meaning(x), aufs));
  }

  /** bind-ro:SRC:DST does that, and remounts the target read-only. */
  lemma {:induction false} BindRoAsks(dest: Option<string>, ephemeral: Option<string>, specs: seq<string>,
                                      spec: string, aufs: bool, src: string, dst: string)
    requires Accepted(specs) && spec == "bind-ro:" + src + ":" + dst && Speakable(src) && Speakable(dst)
    ensures var target := PrefixRoot(dest, dst);
            Adds(dest, ephemeral, specs, spec, aufs,
                 [MakeBindDest(src, target), MountCall(Some(src), target, Some("bind"), {Bind}, None),
                  MakeBindDest(src, target),
                  MountCall(Some(src), target, Some("bind-ro"), {Remount, Bind, Rdonly}, None)])
  {
    var x := BindRoSpec(src, dst);
    JoinThree("bind-ro", src, dst);
    IssuedTwo(dest, BindEntry(src, dst), ReadOnlyEntry(src, dst), aufs);
    TextAdds(dest, ephemeral, specs, spec, aufs, ["bind-ro", src, dst], x, IssuedAll(dest, Meaning(x), aufs));
  }

  /** overlay:UPPER:DST:WORK makes the directory DST and mounts UPPER over it, by overlayfs or by aufs. */
  lemma {:induction false} OverlayAsks(dest: Option<string>, ephemeral: Option<string>, specs: seq<string>,
                                       spec: string, aufs: bool, upper: string, dst: string, work: string)
    requires Accepted(specs) && spec == "overlay:" + upper + ":" + dst + ":" + work
    requires Speakable(upper) && Speakable(dst) && Speakable(work)
    ensures var target := PrefixRoot(dest, dst);
            var data := if aufs then "br:" + upper + "=rw:" + target + "=ro"
                        else "upperdir=" + upper + ",lowerdir=" + target + ",workdir=" + work;
            Adds(dest, ephemeral, specs, spec, aufs,
                 [MakeDir(target), MountCall(None, target, Some("overlay"), {}, Some(data))])
  {
    var x := OverlaySpec(upper, dst, work);
    JoinFour("overlay", upper, dst, work);
    IssuedOne(dest, OverlayEntry(upper, dst, work), aufs);
    TextAdds(dest, ephemeral, specs, spec, aufs, ["overlay", upper, dst, work], x, IssuedAll(dest, Meaning(x), aufs));
  }

  /** tmp:DST makes the directory DST and mounts a tmpfs there. */
  lemma {:induction false} TmpAsks(dest: Option<string>, ephemeral: Option<string>, specs: seq<string>, spec: string,
                                   aufs: bool, dst: string)
    requires Accepted(specs) && spec == "tmp:" + dst && Speakable(dst)
    ensures var target := PrefixRoot(dest, dst);
            Adds(dest, ephemeral, specs, spec, aufs,
                 [MakeDir(target), MountCall(Some("tmpfs"), target, Some("tmpfs"), {}, None)])
  {
    var x := TmpSpec(dst);
    JoinTwo("tmp", dst);
    IssuedOne(dest, TmpEntry(dst), aufs);
    TextAdds(dest, ephemeral, specs, spec, aufs, ["tmp", dst], x, IssuedAll(dest, Meaning(x), aufs));
  }

  /** How a spec ends main: by a NULL pointer exactly if it has nothing but colons, or nothing at all; and apart from
      that it is refused exactly if it says none of the things it can say. */
  lemma {:induction false} SpecOutcomeExactly(spec: string)
    ensures SpecOutcome(spec) == NullRead <==> forall p | 0 <= p < |spec| :: spec[p] == ':'
    ensures SpecOutcome(spec) == Goes <==> Fields(spec, ":") != [] && exists x :: Says(Fields(spec, ":"), x)
  {
    FieldsExist(spec, ":");
    var f := Fields(spec, ":");
    if f != [] {
      if SpecEntries(f).Some? {
        var x := MeansSays(f);
      }
      forall x | Says(f, x) ensures SpecEntries(f).Some? {
        SaysMeans(f, x);
      }
    }
  }

  /** How many paths a spec of this type needs; none stands for an unknown type. */
  function Needed(kind: string): nat {
    if |kind| >= 4 && kind[..4] == "bind" then 2 else if kind == "overlay" then 3 else if kind == "tmp" then 1 else 0
  }

  ghost predicate Enough(args: seq<string>, n: nat) {
    n > 0 && |args| >= n && forall k | 0 <= k < n :: IsAbsolute(args[k])
  }

  lemma {:induction false} FieldsGo(kind: string, args: seq<string>, fields: seq<string>)
    requires fields == [kind] + args
    ensures SpecEntries(fields).Some? <==> Enough(args, Needed(kind))
  {
    KindsDiffer(kind);
    assert forall k | 0 <= k < |args| :: fields[k + 1] == args[k];
    assert |args| >= 1 ==> fields[1] == args[0];
    assert |args| >= 2 ==> fields[2] == args[1];
    assert |args| >= 3 ==> fields[3] == args[2];
  }

  /** Which texts get through: the type, then enough paths that begin with a slash; all others are refused. */
  lemma {:induction false} TextGoes(spec: string, kind: string, args: seq<string>)
    requires spec == Join([kind] + args, ':') && kind != [] && ':' !in kind
    requires forall k | 0 <= k < |args| :: args[k] != [] && ':' !in args[k]
    ensures SpecOutcome(spec) == if Enough(args, Needed(kind)) then Goes else Refused
    ensures Enough(args, Needed(kind)) <==>
            Needed(kind) > 0 && |args| >= Needed(kind) && forall k | 0 <= k < Needed(kind) :: args[k][0] == '/'
  {
    var fields := [kind] + args;
    FieldsJoin(fields, ':');
    assert [':'] == ":";
    FieldsGo(kind, args, fields);
  }

  lemma {:induction false} KindsDiffer(kind: string)
    ensures kind == "overlay" || kind == "tmp" ==> !StartsWith(kind, "bind")
    ensures kind == "bind-ro" ==> StartsWith(kind, "bind")
  {
    assert "overlay"[..4][0] != "bind"[0] && "bind-ro"[..4] == "bind";
  }

  // ---------------------------------------------------------------- system mounts

  /** Request `i` mounts `src`, and the one before it has made the target. */
  ghost predicate Calls(r: seq<Request>, i: nat, src: Option<string>, target: string, kind: string, flags: set<Flag>,
                        data: Option<string>)
  {
    0 < i < |r| && r[i] == MountCall(src, target, Some(kind), flags, data) && r[i - 1] == MakeDir(target)
  }

  lemma {:induction false} EntryCalls(pre: seq<Request>, dest: Option<string>, v: seq<Entry>, aufs: bool,
                                      r: seq<Request>, k: nat, e: Entry)
    requires r == pre + IssuedAll(dest, v, aufs) && k < |v| && v[k] == e && !e.data.Layers? && !IsBind(e.kind)
    ensures Calls(r, |pre| + 2 * k + 1, e.src, PrefixRoot(dest, e.dst), e.kind, e.flags, AsText(e.data))
  {
    IssuedAt(dest, v, aufs, k);
    var all := IssuedAll(dest, v, aufs);
    assert r[|pre| + 2 * k] == all[2 * k] && r[|pre| + 2 * k + 1] == all[2 * k + 1];
  }

  /** Where the system mounts begin: behind the preparation and, if there is one, the overlay over the root. */
  function SystemFrom(ephemeral: Option<string>): nat { if ephemeral.Some? then 6 else 1 }

  /** The system mounts apart from the overlay over the root. */
  function OwnEntries(dest: string): seq<Entry> { ProcEntries(dest) + DevEntries() + RunEntries() }

  /** The parts of a run with a new root: `n` entries, and then the system mounts. */
  lemma {:induction false} RootedParts(dest: string, ephemeral: Option<string>, user: seq<Entry>, aufs: bool,
                                       k: nat)
      returns (pre: seq<Request>, v: seq<Entry>, n: nat)
    requires k < 9
    ensures Requests(Some(dest), ephemeral, user, aufs) == pre + IssuedAll(Some(dest), v, aufs)
    ensures |v| == n + 9 + |user| && SystemFrom(ephemeral) == |pre| + 2 * n && v[n + k] == OwnEntries(dest)[k]
  {
    pre, v := Preparation(Some(dest), ephemeral), SystemEntries(Some(dest), ephemeral) + user;
    n := |EphemeralEntries(ephemeral)|;
    OwnBehind(dest, ephemeral);
    Amid(EphemeralEntries(ephemeral), OwnEntries(dest), user, k);
  }

  lemma {:induction false} OwnBehind(dest: string, ephemeral: Option<string>)
    ensures SystemEntries(Some(dest), ephemeral) == EphemeralEntries(ephemeral) + OwnEntries(dest)
    ensures |OwnEntries(dest)| == 9
  {
    var e, p, d, r := EphemeralEntries(ephemeral), ProcEntries(dest), DevEntries(), RunEntries();
    Assoc(e, p, d);
    Assoc(e, p + d, r);
  }

  /** The `k`-th of them. */
  lemma {:induction false} OwnCalls(dest: string, ephemeral: Option<string>, user: seq<Entry>, aufs: bool, k: nat,
                                    e: Entry, r: seq<Request>, i: nat)
    requires k < 9 && OwnEntries(dest)[k] == e && !e.data.Layers? && !IsBind(e.kind)
    requires r == Requests(Some(dest), ephemeral, user, aufs) && i == SystemFrom(ephemeral) + 2 * k + 1
    ensures Calls(r, i, e.src, PrefixRoot(Some(dest), e.dst), e.kind, e.flags, AsText(e.data))
  {
    var pre, v, n := RootedParts(dest, ephemeral, user, aufs, k);
    EntryCalls(pre, Some(dest), v, aufs, r, n + k, e);
  }

  lemma {:induction false} ProcMounted(dest: string, ephemeral: Option<string>, user: seq<Entry>, aufs: bool)
    ensures var r, n := Requests(Some(dest), ephemeral, user, aufs), SystemFrom(ephemeral);
            Calls(r, n + 1, Some("proc"), PrefixRoot(Some(dest), "/proc"), "proc", {Nosuid, Noexec, Nodev}, None)
  {
    var r, n := Requests(Some(dest), ephemeral, user, aufs), SystemFrom(ephemeral);
    OwnCalls(dest, ephemeral, user, aufs, 0, ProcEntries(dest)[0], r, n + 1);
  }

  /** Under it, /proc/sys is bound to itself, and then made read-only before anything else is mounted. */
  lemma {:induction false} ProcSysReadOnly(dest: string, ephemeral: Option<string>, user: seq<Entry>, aufs: bool)
    ensures var r, n := Requests(Some(dest), ephemeral, user, aufs), SystemFrom(ephemeral);
            var sys := PrefixRoot(Some(dest), "/proc/sys");
            && Calls(r, n + 3, Some(sys), sys, "proc/sys", {Bind}, None)
            && Calls(r, n + 5, None, sys, "proc/sys-ro", {Bind, Rdonly, Remount}, None)
  {
    var r, n := Requests(Some(dest), ephemeral, user, aufs), SystemFrom(ephemeral);
    OwnCalls(dest, ephemeral, user, aufs, 1, ProcEntries(dest)[1], r, n + 3);
    OwnCalls(dest, ephemeral, user, aufs, 2, ProcEntries(dest)[2], r, n + 5);
  }

  /** /sys, read-only. */
  lemma {:induction false} SysMounted(dest: string, ephemeral: Option<string>, user: seq<Entry>, aufs: bool)
    ensures var r, n := Requests(Some(dest), ephemeral, user, aufs), SystemFrom(ephemeral);
            Calls(r, n + 7, Some("sysfs"), PrefixRoot(Some(dest), "/sys"), "sysfs",
                  {Nosuid, Noexec, Nodev, Rdonly}, None)
  {
    var r, n := Requests(Some(dest), ephemeral, user, aufs), SystemFrom(ephemeral);
    OwnCalls(dest, ephemeral, user, aufs, 3, DevEntries()[0], r, n + 7);
  }

  /** /dev with what belongs into it. */
  lemma {:induction false} DevMounted(dest: string, ephemeral: Option<string>, user: seq<Entry>, aufs: bool)
    ensures var r, n := Requests(Some(dest), ephemeral, user, aufs), SystemFrom(ephemeral);
            && Calls(r, n + 9, Some("tmpfs"), PrefixRoot(Some(dest), "/dev"), "tmpfs",
                     {Nosuid, Strictatime}, Some("mode=755"))
            && Calls(r, n + 11, Some("devpts"), PrefixRoot(Some(dest), "/dev/pts"), "devpts",
                     {Nosuid, Noexec}, Some("newinstance,ptmxmode=0666,mode=0620,gid=5"))
            && Calls(r, n + 13, Some("tmpfs"), PrefixRoot(Some(dest), "/dev/shm"), "tmpfs",
                     {Nosuid, Strictatime, Nodev}, Some("mode=1777"))
  {
    var r, n := Requests(Some(dest), ephemeral, user, aufs), SystemFrom(ephemeral);
    OwnCalls(dest, ephemeral, user, aufs, 4, DevEntries()[1], r, n + 9);
    OwnCalls(dest, ephemeral, user, aufs, 5, DevEntries()[2], r, n + 11);
    OwnCalls(dest, ephemeral, user, aufs, 6, RunEntries()[0], r, n + 13);
  }

  /** /run, and the cgroups inside /sys; then come the user's mounts, two requests for each entry. */
  lemma {:induction false} RunMounted(dest: string, ephemeral: Option<string>, user: seq<Entry>, aufs: bool)
    ensures var r, n := Requests(Some(dest), ephemeral, user, aufs), SystemFrom(ephemeral);
            && Calls(r, n + 15, Some("tmpfs"), PrefixRoot(Some(dest), "/run"), "tmpfs",
                     {Nosuid, Nodev, Strictatime}, Some("mode=755"))
            && Calls(r, n + 17, Some("cgroup"), PrefixRoot(Some(dest), "/sys/fs/cgroup"), "cgroup2",
                     {Nosuid, Nodev, Noexec}, None)
            && |r| == n + 18 + 2 * |user|
  {
    var pre, v, m := RootedParts(dest, ephemeral, user, aufs, 8);
    var r, n := Requests(Some(dest), ephemeral, user, aufs), SystemFrom(ephemeral);
    OwnCalls(dest, ephemeral, user, aufs, 7, RunEntries()[1], r, n + 15);
    OwnCalls(dest, ephemeral, user, aufs, 8, RunEntries()[2], r, n + 17);
  }

  /** Every run begins by making / a slave. Without a new root there are no system mounts. */
  lemma {:induction false} RunBegins(dest: Option<string>, ephemeral: Option<string>, user: seq<Entry>, aufs: bool)
    ensures var r := Requests(dest, ephemeral, user, aufs);
            && r != [] && r[0] == MountCall(None, "/", None, {Slave, Rec}, None)
            && (dest.None? ==> |r| == 1 + 2 * |user|)
  {}

  /** With one, --ephemeral mounts a tmpfs, makes two directories in it, and lays the first over the root, the second
      being its workdir. */
  lemma {:induction false} EphemeralRoot(dest: string, tmp: string, user: seq<Entry>, aufs: bool)
    ensures var r := Requests(Some(dest), Some(tmp), user, aufs);
            var upper, work, target :=
              PrefixRoot(Some(tmp), "root"), PrefixRoot(Some(tmp), "work"), PrefixRoot(Some(dest), "/");
            && |r| >= 6 && r[1] == MountCall(Some("tmpfs"), tmp, Some("tmpfs"), {}, None)
            && r[2] == MakeDir(upper) && r[3] == MakeDir(work)
            && Calls(r, 5, None, target, "overlay", {},
                     Some(if aufs then "br:" + upper + "=rw:" + target + "=ro"
                          else "upperdir=" + upper + ",lowerdir=" + target + ",workdir=" + work))
  {
    var pre, v := Preparation(Some(dest), Some(tmp)), SystemEntries(Some(dest), Some(tmp)) + user;
    var r, all := Requests(Some(dest), Some(tmp), user, aufs), IssuedAll(Some(dest), v, aufs);
    assert v[0] == EphemeralEntries(Some(tmp))[0];
    IssuedAt(Some(dest), v, aufs, 0);
    assert r == pre + all && r[4] == all[0] && r[5] == all[1];
  }

  /** Whatever the options: just before each mount call behind the preparation its target is made, for binds of the
      kind of the source, for all others as a directory. */
  lemma {:induction false} TargetsMade(dest: Option<string>, ephemeral: Option<string>, specs: seq<string>, aufs: bool,
                                       i: nat)
    requires Accepted(specs)
    requires var r := Requests(dest, ephemeral, UserEntries(specs), aufs);
             |Preparation(dest, ephemeral)| <= i < |r| && r[i].MountCall?
    ensures var r := Requests(dest, ephemeral, UserEntries(specs), aufs);
            && i > 0 && r[i].kind.Some?
            && if r[i].kind.value == "bind" || r[i].kind.value == "bind-ro"
               then r[i].src.Some? && r[i - 1] == MakeBindDest(r[i].src.value, r[i].target)
               else r[i - 1] == MakeDir(r[i].target)
  {
    var v := SystemEntries(dest, ephemeral) + UserEntries(specs);
    var r := Requests(dest, ephemeral, UserEntries(specs), aufs);
    SystemSound(dest, ephemeral);
    UserSound(specs);
    SoundConcat(SystemEntries(dest, ephemeral), UserEntries(specs));
    var k := CallAt(Preparation(dest, ephemeral), dest, v, aufs, r, i);
    assert Sound(v[k]);
  }
}

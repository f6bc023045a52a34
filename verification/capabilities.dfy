/** src/capabilities.c: the list of --caps values and what it does to the capability sets of the container. */
module Capabilities {
  import opened UtSort
  import opened UtList

  datatype Action = Add | Drop

  /** struct capability without its links; -1 stands for all capabilities. */
  datatype Capability = Capability(action: Action, capability: int)

  /** The four sets that setup_capabilities updates. */
  datatype Caps = Caps(effective: set<int>, permitted: set<int>, inheritable: set<int>, bounding: set<int>)

  // ---------------------------------------------------------------- what a list means

  function Updated(s: Caps, c: Capability): Caps {
    if c.action.Add? then
      Caps(s.effective + {c.capability}, s.permitted + {c.capability},
           s.inheritable + {c.capability}, s.bounding + {c.capability})
    else
      Caps(s.effective - {c.capability}, s.permitted - {c.capability},
           s.inheritable - {c.capability}, s.bounding - {c.capability})
  }

  const NONE := Caps({}, {}, {}, {})

  function Step(s: Caps, c: Capability): Caps {
    if c.capability >= 0 then Updated(s, c) else if c.action.Drop? then NONE else s
  }

  /** The sets after the entries of `v`, taken in order. */
  function After(s: Caps, v: seq<Capability>): Caps {
    if v == [] then s else Step(After(s, v[..|v| - 1]), v[|v| - 1])
  }

  /** `c` is in all four sets, or in none. */
  ghost predicate Everywhere(s: Caps, c: int, present: bool) {
    (c in s.effective) == (c in s.permitted) == (c in s.inheritable) == (c in s.bounding) == present
  }

  ghost predicate SameFor(s: Caps, t: Caps, c: int) {
    && (c in s.effective <==> c in t.effective) && (c in s.permitted <==> c in t.permitted)
    && (c in s.inheritable <==> c in t.inheritable) && (c in s.bounding <==> c in t.bounding)
  }

  /** What capability_add lets through: `all` comes first or not at all. */
  ghost predicate Accepted(v: seq<Capability>) {
    forall i | 0 <= i < |v| :: v[i].capability >= 0 || (i == 0 && v[i].capability == -1)
  }

  ghost predicate Unmentioned(v: seq<Capability>, from: nat, c: int) {
    forall j | from <= j < |v| :: v[j].capability != c
  }

  /** The last entry for a capability decides about it. */
  lemma {:induction false} LastMention(s: Caps, v: seq<Capability>, c: nat, k: nat)
    requires Accepted(v) && k < |v| && v[k].capability == c && Unmentioned(v, k + 1, c)
    ensures Everywhere(After(s, v), c, v[k].action.Add?)
    decreases |v|
  {
    var most := v[..|v| - 1];
    if k < |most| {
      LastMention(s, most, c, k);
    }
  }

  /** A capability without an entry keeps its state, unless the list begins with -all: then it is gone. */
  lemma {:induction false} NoMention(s: Caps, v: seq<Capability>, c: nat)
    requires Accepted(v) && Unmentioned(v, 0, c)
    ensures if v != [] && v[0] == Capability(Drop, -1) then Everywhere(After(s, v), c, false)
            else SameFor(After(s, v), s, c)
    decreases |v|
  {
    if |v| > 1 {
      NoMention(s, v[..|v| - 1], c);
    }
  }

  /** A leading `all` changes nothing. */
  lemma {:induction false} LeadingAll(s: Caps, v: seq<Capability>)
    ensures After(s, [Capability(Add, -1)] + v) == After(s, v)
    decreases |v|
  {
    var all := [Capability(Add, -1)];
    if v == [] {
      assert all + v == all && all[..0] == [];
    } else {
      LeadingAll(s, v[..|v| - 1]);
      assert (all + v)[..|all + v| - 1] == all + v[..|v| - 1];
    }
  }

  /** Capabilities have no negative numbers. */
  ghost predicate Natural(s: Caps) {
    forall c | c in s.effective || c in s.permitted || c in s.inheritable || c in s.bounding :: c >= 0
  }

  lemma {:induction false} AfterNatural(s: Caps, v: seq<Capability>)
    requires Natural(s)
    ensures Natural(After(s, v))
    decreases |v|
  {
    if v != [] {
      AfterNatural(s, v[..|v| - 1]);
    }
  }

  lemma {:induction false} SameSet(a: set<int>, b: set<int>)
    requires forall c | c in a || c in b :: c >= 0
    requires forall c: nat :: c in a <==> c in b
    ensures a == b
  {
    forall c ensures c in a <==> c in b {
      if c >= 0 {
        var n: nat := c;
        assert n in a <==> n in b;
      }
    }
  }

  lemma {:induction false} SameForAll(s: Caps, t: Caps)
    requires Natural(s) && Natural(t) && forall c: nat :: SameFor(s, t, c)
    ensures s == t
  {
    forall c: nat
      ensures c in s.effective <==> c in t.effective
      ensures c in s.permitted <==> c in t.permitted
      ensures c in s.inheritable <==> c in t.inheritable
      ensures c in s.bounding <==> c in t.bounding
    {
      assert SameFor(s, t, c);
    }
    SameSet(s.effective, t.effective);
    SameSet(s.permitted, t.permitted);
    SameSet(s.inheritable, t.inheritable);
    SameSet(s.bounding, t.bounding);
  }

  /** The last entry for `c`, if there is one. */
  lemma {:induction false} LastEntry(v: seq<Capability>, c: nat) returns (k: nat)
    ensures k <= |v| && (k < |v| ==> v[k].capability == c && Unmentioned(v, k + 1, c))
    ensures k == |v| ==> Unmentioned(v, 0, c)
  {
    if Unmentioned(v, 0, c) {
      k := |v|;
    } else {
      k := |v| - 1;
      while v[k].capability != c
        invariant k < |v| && Unmentioned(v, k + 1, c)
        decreases k
      {
        k := k - 1;
      }
    }
  }

  /** What two start states come to under the same entries, none of them an `all`. */
  lemma {:induction false} SameAfter(s: Caps, t: Caps, v: seq<Capability>, c: nat)
    requires forall i | 0 <= i < |v| :: v[i].capability >= 0
    ensures SameFor(After(s, v), After(t, v), c) <==> (Unmentioned(v, 0, c) ==> SameFor(s, t, c))
  {
    var k := LastEntry(v, c);
    if k < |v| {
      LastMention(s, v, c, k);
      LastMention(t, v, c, k);
    } else {
      NoMention(s, v, c);
      NoMention(t, v, c);
    }
  }

  /**
   * The manual says that a leading `all` asks for a full initial set. The code adds nothing for it: for every list
   * behind it, the outcome is that of a full initial set exactly if the set already is full in every capability that
   * the list does not mention.
   */
  lemma {:induction false} AllAddsNothing(s: Caps, full: Caps, v: seq<Capability>)
    requires Accepted([Capability(Add, -1)] + v) && Natural(s) && Natural(full)
    ensures After(s, [Capability(Add, -1)] + v) == After(full, v) <==>
            forall c: nat | Unmentioned(v, 0, c) :: SameFor(s, full, c)
  {
    LeadingAll(s, v);
    assert forall i | 0 <= i < |v| :: v[i] == ([Capability(Add, -1)] + v)[i + 1];
    forall c: nat
      ensures SameFor(After(s, v), After(full, v), c) <==> (Unmentioned(v, 0, c) ==> SameFor(s, full, c))
    {
      SameAfter(s, full, v, c);
    }
    AfterNatural(s, v);
    AfterNatural(full, v);
    if forall c: nat :: SameFor(After(s, v), After(full, v), c) {
      SameForAll(After(s, v), After(full, v));
    }
  }

  /** A process without capabilities stays without, whatever `all` was meant to do; and under all,-chown too. */
  lemma {:induction false} AllOnNothing(chown: nat)
    ensures After(NONE, [Capability(Add, -1)]) == NONE
    ensures After(NONE, [Capability(Add, -1), Capability(Drop, chown)]) == NONE
  {
    LeadingAll(NONE, []);
    LeadingAll(NONE, [Capability(Drop, chown)]);
    assert [Capability(Add, -1)] + [] == [Capability(Add, -1)];
    assert [Capability(Add, -1)] + [Capability(Drop, chown)] == [Capability(Add, -1), Capability(Drop, chown)];
    assert [Capability(Drop, chown)][..0] == [];
  }

  // ---------------------------------------------------------------- values of --caps

  function Lower(c: char): char { if 'A' <= c <= 'Z' then c + 32 as char else c }

  /** strcasecmp(s, "all") == 0 in the C locale. */
  predicate IsAll(s: string) {
    |s| == 3 && Lower(s[0]) == 'a' && Lower(s[1]) == 'l' && Lower(s[2]) == 'l'
  }

  /** The name behind an optional sign. */
  function Name(cap: string): string
    requires cap != []
  {
    if cap[0] == '+' || cap[0] == '-' then cap[1..] else cap
  }

  /** The entry for one value; `number` is capng_name_to_capability, negative for an unknown name. */
  function Entry(cap: string, number: string -> int): Capability
    requires cap != []
  {
    Capability(if cap[0] == '-' then Drop else Add, if IsAll(Name(cap)) then -1 else number(Name(cap)))
  }

  /** capability_add ends the process for an empty value, an unknown name, and an `all` that comes too late. */
  predicate Admits(first: bool, cap: string, number: string -> int) {
    cap != [] && if IsAll(Name(cap)) then first else number(Name(cap)) >= 0
  }

  method CapabilityAdd(caps: DList<Capability>, cap: string, number: string -> int)
      returns (ok: bool, ghost added: seq<Node<Capability>>)
    requires caps.Valid()
    modifies caps, caps.nodes
    ensures caps.Valid() && caps.nodes == old(caps.nodes) + added && fresh(added)
    ensures ok <==> Admits(old(caps.nodes) == [], cap, number)
    ensures if ok then Values(added) == [Entry(cap, number)] else added == []
  {
    added := [];
    if cap == [] { return false, []; }
    var action := Add;
    var name := cap;
    if cap[0] == '+' {
      action, name := Add, cap[1..];
    } else if cap[0] == '-' {
      action, name := Drop, cap[1..];
    }
    var capability;
    if IsAll(name) {
      if caps.head != null { return false, []; }
      capability := -1;
    } else {
      capability := number(name);
      if capability < 0 { return false, []; }
    }
    var c := new Node(Capability(action, capability));
    caps.Append(c);
    return true, [c];
  }

  /** The values that get through, as entries. */
  ghost predicate Reads(specs: seq<string>, number: string -> int, v: seq<Capability>) {
    && |v| == |specs|
    && forall i | 0 <= i < |specs| :: Admits(i == 0, specs[i], number) && v[i] == Entry(specs[i], number)
  }

  /** Every list that gets through has `all` only at its head. */
  lemma {:induction false} ReadsAccepted(specs: seq<string>, number: string -> int, v: seq<Capability>)
    requires Reads(specs, number, v)
    ensures Accepted(v)
  {
    forall i | 0 <= i < |v| ensures v[i].capability >= 0 || (i == 0 && v[i].capability == -1) {
      assert Admits(i == 0, specs[i], number);
    }
  }

  /** The alias may be spelled in any case. */
  lemma {:induction false} AllSpelled(s: string)
    ensures IsAll(s) <==> |s| == 3 && (s[0] == 'a' || s[0] == 'A') && (s[1] == 'l' || s[1] == 'L') &&
                          (s[2] == 'l' || s[2] == 'L')
  {}

  /** A value is a sign, which may be missing, and a name. */
  ghost predicate Signed(spec: string, sign: string, name: string) {
    && spec == sign + name
    && (sign == "+" || sign == "-" || (sign == "" && (name == [] || (name[0] != '+' && name[0] != '-'))))
  }

  /** What a value asks for: a minus drops, anything else adds; `all` goes only first, and other names must be known. */
  lemma {:induction false} SignedValue(first: bool, spec: string, sign: string, name: string, number: string -> int)
    requires Signed(spec, sign, name)
    ensures Admits(first, spec, number) <==> spec != [] && if IsAll(name) then first else number(name) >= 0
    ensures spec != [] ==> Entry(spec, number) == Capability(if sign == "-" then Drop else Add,
                                                             if IsAll(name) then -1 else number(name))
  {
    if sign == "" {
      assert spec == name;
    } else {
      assert spec[0] == sign[0] && spec[1..] == name;
    }
  }

  ghost predicate Mentions(spec: string, number: string -> int, n: int) {
    exists sign, name :: Signed(spec, sign, name) && !IsAll(name) && number(name) == n
  }

  lemma {:induction false} MentionsEntry(spec: string, number: string -> int, n: nat)
    requires spec != []
    ensures Mentions(spec, number, n) <==> Entry(spec, number).capability == n
  {
    forall sign, name | Signed(spec, sign, name)
      ensures Entry(spec, number).capability == if IsAll(name) then -1 else number(name)
    {
      SignedValue(true, spec, sign, name, number);
    }
    var sign := if spec[0] == '+' then "+" else if spec[0] == '-' then "-" else "";
    assert sign != "" ==> spec == sign + spec[1..];
    assert sign == "" ==> spec == sign + spec;
    assert Signed(spec, sign, Name(spec));
  }

  lemma {:induction false} Unnamed(specs: seq<string>, number: string -> int, v: seq<Capability>, from: nat, n: nat)
    requires Reads(specs, number, v) && forall j | from <= j < |specs| :: !Mentions(specs[j], number, n)
    ensures Unmentioned(v, from, n)
  {
    forall j | from <= j < |v| ensures v[j].capability != n {
      assert Admits(j == 0, specs[j], number);
      MentionsEntry(specs[j], number, n);
    }
  }

  /** From the values to the sets: the last value that names a capability decides, by its sign. */
  lemma {:induction false} LastValueDecides(s: Caps, specs: seq<string>, number: string -> int, v: seq<Capability>,
                                            k: nat, sign: string, name: string)
    requires Reads(specs, number, v) && k < |specs| && Signed(specs[k], sign, name) && !IsAll(name)
    requires forall j | k < j < |specs| :: !Mentions(specs[j], number, number(name))
    ensures number(name) >= 0 && Everywhere(After(s, v), number(name), sign != "-")
  {
    assert Admits(k == 0, specs[k], number);
    SignedValue(k == 0, specs[k], sign, name, number);
    ReadsAccepted(specs, number, v);
    Unnamed(specs, number, v, k + 1, number(name));
    LastMention(s, v, number(name), k);
  }

  /** A list that begins with -all, in any case, clears what it does not name; any other leaves that as it is. */
  lemma {:induction false} UnnamedStays(s: Caps, specs: seq<string>, number: string -> int, v: seq<Capability>, n: nat)
    requires Reads(specs, number, v) && forall j | 0 <= j < |specs| :: !Mentions(specs[j], number, n)
    ensures if specs != [] && exists name :: IsAll(name) && specs[0] == "-" + name
            then Everywhere(After(s, v), n, false) else SameFor(After(s, v), s, n)
  {
    ReadsAccepted(specs, number, v);
    Unnamed(specs, number, v, 0, n);
    NoMention(s, v, n);
    if specs != [] {
      DropsAll(specs[0], number);
      assert Admits(true, specs[0], number) && v[0] == Entry(specs[0], number);
    }
  }

  lemma {:induction false} DropsAll(spec: string, number: string -> int)
    requires Admits(true, spec, number)
    ensures Entry(spec, number) == Capability(Drop, -1) <==> exists name :: IsAll(name) && spec == "-" + name
  {
    forall name | IsAll(name) && spec == "-" + name ensures Entry(spec, number) == Capability(Drop, -1) {
      SignedValue(true, spec, "-", name, number);
    }
    if Entry(spec, number) == Capability(Drop, -1) {
      assert spec == "-" + Name(spec);
    }
  }

  /** The loop of main over the --caps values. */
  method CapabilitiesAdd(caps: DList<Capability>, specs: seq<string>, number: string -> int) returns (ok: bool)
    requires caps.Valid() && caps.nodes == []
    modifies caps
    ensures caps.Valid()
    ensures ok <==> forall i | 0 <= i < |specs| :: Admits(i == 0, specs[i], number)
    ensures ok ==> Reads(specs, number, Values(caps.nodes))
  {
    for k := 0 to |specs|
      invariant caps.Valid() && fresh(caps.nodes) && Reads(specs[..k], number, Values(caps.nodes))
    {
      ghost var v := Values(caps.nodes);
      ghost var added;
      ok, added := CapabilityAdd(caps, specs[k], number);
      if !ok { return; }
      assert Values(caps.nodes) == v + [Entry(specs[k], number)];
    }
    assert specs[..|specs|] == specs;
    ok := true;
  }

  /** What libcap-ng holds between its calls. */
  class Library {
    var sets: Caps

    constructor ()
      ensures sets == NONE
    {
      sets := NONE;
    }

    method GetCapsProcess(process: Caps)
      modifies this
      ensures sets == process
    {
      sets := process;
    }

    method Clear()
      modifies this
      ensures sets == NONE
    {
      sets := NONE;
    }

    method Update(c: Capability)
      modifies this
      ensures sets == Updated(old(sets), c)
    {
      sets := Updated(sets, c);
    }
  }

  /** setup_capabilities up to the sets handed to capng_apply; `process` is what the process starts with. */
  method SetupCapabilities(lib: Library, caps: DList<Capability>, process: Caps)
    requires caps.Valid()
    modifies lib
    ensures lib.sets == After(process, Values(caps.nodes))
  {
    lib.GetCapsProcess(process);
    var i := caps.head;
    ghost var v, k := Values(caps.nodes), 0;
    while i != null
      invariant k <= |v| && i == At(caps.nodes, k, null)
      invariant lib.sets == After(process, v[..k])
      decreases |v| - k
    {
      assert v[..k + 1][..k] == v[..k];
      if i.val.capability < 0 {
        if i.val.action == Drop {
          lib.Clear();
        }
      } else {
        lib.Update(i.val);
      }
      i, k := i.next, k + 1;
    }
    assert v[..k] == v;
  }

  /** `--caps=all,X` is accepted when `--caps=X` is and X does not itself begin with an `all`; then they do the same.
      The alias may be spelled in any case, with a plus or without a sign. */
  lemma {:induction false} AllPrefix(s: Caps, all: string, specs: seq<string>, number: string -> int,
                                     v: seq<Capability>)
    requires all != [] && all[0] != '-' && IsAll(Name(all))
    ensures Reads([all] + specs, number, [Capability(Add, -1)] + v) <==>
            Reads(specs, number, v) && (specs == [] || !IsAll(Name(specs[0])))
    ensures After(s, [Capability(Add, -1)] + v) == After(s, v)
  {
    LeadingAll(s, v);
    var specs', v' := [all] + specs, [Capability(Add, -1)] + v;
    assert Admits(true, all, number) && Entry(all, number) == Capability(Add, -1);
    if Reads(specs', number, v') {
      forall i | 0 <= i < |specs| ensures Admits(i == 0, specs[i], number) && v[i] == Entry(specs[i], number) {
        assert Admits(false, specs'[i + 1], number) && v'[i + 1] == Entry(specs'[i + 1], number);
      }
      assert specs == [] || Admits(false, specs'[1], number);
    }
    if Reads(specs, number, v) && (specs == [] || !IsAll(Name(specs[0]))) {
      forall i | 0 <= i < |specs'| ensures Admits(i == 0, specs'[i], number) && v'[i] == Entry(specs'[i], number) {
        if i > 0 {
          assert Admits(i - 1 == 0, specs[i - 1], number) && v[i - 1] == Entry(specs[i - 1], number);
        }
      }
    }
  }
}

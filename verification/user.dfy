/** The loops of src/user.c over the list of user maps, and the option loop of src/pflask.c that fills it. */
module UserList {
  import opened UtSort
  import opened UtList
  import opened Decimal
  import opened UserMap
  import opened Validate
  import opened Options
  import opened Sequences

  /** user_add_map: the counts and ids are taken as they come, the list grows at its end. */
  method UserAddMap(users: DList<User>, kind: char, id: nat, hostId: nat, count: nat) returns (ghost added: Node<User>)
    requires users.Valid()
    modifies users, users.nodes
    ensures users.Valid() && users.nodes == old(users.nodes) + [added]
    ensures fresh(added) && added.val == User(kind, id, hostId, count)
  {
    var usr := new Node(User(kind, id, hostId, count));
    users.Append(usr);
    added := usr;
  }

  /** setup_user_map2, up to where the text is handed to newuidmap or written to /proc. */
  method MapText(users: DList<User>, kind: char, haveCommand: bool) returns (text: string)
    requires users.Valid()
    ensures text == Text(OfKind(Values(users.nodes), kind), Separator(haveCommand))
  {
    text := "";
    var i := users.head;
    ghost var v, k := Values(users.nodes), 0;
    while i != null
      invariant k <= |v| && i == At(users.nodes, k, null)
      invariant text == Text(OfKind(v[..k], kind), Separator(haveCommand))
      decreases |v| - k
    {
      OneMore(v, k, kind, Separator(haveCommand));
      if i.val.kind == kind {
        var line := Print(i.val.id) + " " + Print(i.val.hostId) + " " + Print(i.val.count) + [Separator(haveCommand)];
        text := text + line;
      }
      i, k := i.next, k + 1;
    }
    assert v[..k] == v;
  }

  lemma {:induction false} OneMore(v: seq<User>, k: nat, kind: char, sep: char)
    requires k < |v|
    ensures Text(OfKind(v[..k + 1], kind), sep) ==
            Text(OfKind(v[..k], kind), sep) + if v[k].kind == kind then Line(v[k], sep) else ""
  {
    OfKindMore(v[..k], v[k], kind);
    assert v[..k + 1] == v[..k] + [v[k]];
    if v[k].kind == kind {
      TextMore(OfKind(v[..k], kind), v[k], sep);
    }
  }

  lemma {:induction false} OfKindMore(a: seq<User>, u: User, kind: char)
    ensures OfKind(a + [u], kind) == if u.kind == kind then OfKind(a, kind) + [u] else OfKind(a, kind)
  {
    assert (a + [u])[..|a|] == a && (a + [u])[|a|] == u;
  }

  lemma {:induction false} TextMore(a: seq<User>, u: User, sep: char)
    ensures Text(a + [u], sep) == Text(a, sep) + Line(u, sep)
  {
    assert (a + [u])[..|a|] == a;
  }

  /** user_get_mapped_root: a search that stops at the first entry of the kind for id 0. */
  method UserGetMappedRoot(users: DList<User>, kind: char) returns (found: bool, id: nat)
    requires users.Valid()
    ensures found <==> MappedRoot(Values(users.nodes), kind).Some?
    ensures found ==> MappedRoot(Values(users.nodes), kind) == Some(id)
  {
    var i := users.head;
    ghost var v, k := Values(users.nodes), 0;
    id := 0;
    while i != null
      invariant k <= |v| && i == At(users.nodes, k, null)
      invariant forall j | 0 <= j < k :: !(v[j].kind == kind && v[j].id == 0)
      decreases |v| - k
    {
      if i.val.kind == kind && i.val.id == 0 {
        MappedRootIs(v, kind, k);
        return true, i.val.hostId;
      }
      i, k := i.next, k + 1;
    }
    MappedRootIs(v, kind, k);
    return false, 0;
  }

  ghost function TwoEntries(t: Triple): seq<User> {
    [User('u', t.id, t.hostId, t.count), User('g', t.id, t.hostId, t.count)]
  }

  /** What the --user-map options put into the list: one entry for users and one for groups each. */
  ghost function Entries(triples: seq<Triple>): seq<User> {
    if triples == [] then [] else Entries(triples[..|triples| - 1]) + TwoEntries(triples[|triples| - 1])
  }

  /** What becomes of one --user-map option: validate_optlist looks at it first, then the parser of main. */
  function OptionOutcome(option: string): Outcome {
    if Validation(option) != Goes then Validation(option) else if ParseOption(option).None? then Refused else Goes
  }

  /** The parser alone would take two colons for three zeros; but such an option does not get to it. */
  lemma {:induction false} ColonsNotParsed()
    ensures ParseOption("::") == Some(Triple(0, 0, 0)) && OptionOutcome("::") == NullRead
  {
    ColonsOnly("::");
  }

  /** An option gets through exactly if it is three numerals, each of which may be missing, with colons between them,
      and not all of it is colons. */
  lemma {:induction false} OptionGoes(option: string)
    ensures OptionOutcome(option) == Goes <==>
            (exists a, b, c :: OptionOf(option, a, b, c)) && exists p | 0 <= p < |option| :: option[p] != ':'
  {
    ColonsOnly(option);
    if ParseOption(option).Some? {
      OptionExactly(option, ParseOption(option).value);
    }
    forall a, b, c | OptionOf(option, a, b, c) ensures ParseOption(option).Some? && option != [] {
      OptionAccepted(option, a, b, c);
    }
  }

  ghost predicate Accepts(option: string, t: Triple) {
    Validation(option) == Goes && ParseOption(option) == Some(t)
  }

  /** The first options are accepted, with these triples. */
  ghost predicate Parsed(options: seq<string>, triples: seq<Triple>) {
    |triples| <= |options| && forall i | 0 <= i < |triples| :: Accepts(options[i], triples[i])
  }

  lemma {:induction false} ParsedMore(options: seq<string>, triples: seq<Triple>, t: Triple)
    requires Parsed(options, triples) && |triples| < |options| && Accepts(options[|triples|], t)
    ensures Parsed(options, triples + [t])
  {}

  /** `users` grew from `was` by nodes made meanwhile, which hold the entries of `triples`. */
  ghost predicate Grown(users: DList<User>, was: seq<Node<User>>, added: seq<Node<User>>, triples: seq<Triple>)
    reads users, users.nodes
  {
    users.Valid() && users.nodes == was + added && Values(added) == Entries(triples)
  }

  /** The two calls of user_add_map that one option leads to. */
  method AddBoth(users: DList<User>, t: Triple, ghost was: seq<Node<User>>, ghost added: seq<Node<User>>,
                 ghost triples: seq<Triple>) returns (ghost more: seq<Node<User>>)
    requires Grown(users, was, added, triples)
    modifies users, was, added
    ensures fresh(more) && Grown(users, was, added + more, triples + [t])
  {
    ghost var u := UserAddMap(users, 'u', t.id, t.hostId, t.count);
    ghost var g := UserAddMap(users, 'g', t.id, t.hostId, t.count);
    more := [u] + [g];
    Assoc(was, added, more);
    Assoc(was + added, [u], [g]);
    EntriesMore(triples, t);
    ValuesConcat(added, more);
  }

  /** `x = strtoul(start, &end, 10)`, then `*end` has to be a colon; `next` is `end + 1`. */
  method ParseField(arg: string, start: nat) returns (r: Reading)
    requires start <= |arg|
    ensures r == ReadField(arg, start)
  {
    var n := Strtoul(arg, start);
    if n.end == |arg| || arg[n.end] != ':' { return Malformed; }
    return Got(n.value, n.end + 1);
  }

  /** The parser in main for one --user-map option. */
  method ParseUserMap(arg: string) returns (r: Option<Triple>)
    ensures r == ParseOption(arg)
  {
    var a := ParseField(arg, 0);
    if a.Malformed? { return None; }
    var b := ParseField(arg, a.next);
    if b.Malformed? { return None; }
    var n := Strtoul(arg, b.next);
    if n.end != |arg| { return None; }
    return Some(Triple(Low32(a.value), Low32(b.value), n.value));
  }

  /** The start of a turn of the option loop, up to the calls of user_add_map. */
  method TakeOption(option: string) returns (r: Outcome, t: Triple)
    requires '\0' !in option
    ensures r == OptionOutcome(option) && (r == Goes ==> Accepts(option, t))
  {
    t := Triple(0, 0, 0);
    r := ValidateOptlist(option);
    if r != Goes { return; }
    var parsed := ParseUserMap(option);
    if parsed.None? { return Refused, t; }
    t := parsed.value;
  }

  /** One turn of the option loop. */
  method OneOption(users: DList<User>, option: string, ghost was: seq<Node<User>>, ghost added: seq<Node<User>>,
                   ghost triples: seq<Triple>) returns (r: Outcome, ghost t: Triple, ghost more: seq<Node<User>>)
    requires Grown(users, was, added, triples) && '\0' !in option
    modifies users, was, added
    ensures r == OptionOutcome(option) && fresh(more)
    ensures r == Goes ==> Accepts(option, t) && Grown(users, was, added + more, triples + [t])
    ensures r != Goes ==> Grown(users, was, added, triples)
  {
    more := [];
    var triple;
    r, triple := TakeOption(option);
    t := triple;
    if r == Goes {
      more := AddBoth(users, triple, was, added, triples);
    }
  }

  /**
   * The option loop of main. It ends the process at the first option that does not get through; when it does not, the
   * list holds what it held, then two entries for each option in the order given.
   */
  method AddUserMaps(users: DList<User>, options: seq<string>)
      returns (r: Outcome, ghost triples: seq<Triple>, ghost added: seq<Node<User>>)
    requires users.Valid() && forall i | 0 <= i < |options| :: '\0' !in options[i]
    modifies users, users.nodes
    ensures Grown(users, old(users.nodes), added, triples) && Parsed(options, triples)
    ensures if r == Goes then |triples| == |options|
            else |triples| < |options| && r == OptionOutcome(options[|triples|])
  {
    triples, added := [], [];
    var k := 0;
    while k < |options|
      invariant |triples| == k <= |options| && Parsed(options, triples)
      invariant fresh(added) && Grown(users, old(users.nodes), added, triples)
    {
      ghost var t, more;
      r, t, more := OneOption(users, options[k], old(users.nodes), added, triples);
      if r != Goes { return; }
      ParsedMore(options, triples, t);
      added, triples, k := added + more, triples + [t], k + 1;
    }
    r := Goes;
  }

  lemma {:induction false} EntriesMore(triples: seq<Triple>, t: Triple)
    ensures Entries(triples + [t]) == Entries(triples) + TwoEntries(t)
  {
    assert (triples + [t])[..|triples|] == triples;
  }

  /** The two entries of each triple, in order. */
  lemma {:induction false} EntriesAt(triples: seq<Triple>, k: nat)
    requires k < |triples|
    ensures |Entries(triples)| == 2 * |triples|
    ensures var t := triples[k];
            && Entries(triples)[2 * k] == User('u', t.id, t.hostId, t.count)
            && Entries(triples)[2 * k + 1] == User('g', t.id, t.hostId, t.count)
    decreases |triples|
  {
    if k < |triples| - 1 {
      EntriesAt(triples[..|triples| - 1], k);
    } else {
      EntriesLength(triples[..k]);
    }
  }

  lemma {:induction false} EntriesLength(triples: seq<Triple>)
    ensures |Entries(triples)| == 2 * |triples|
  {
    if triples != [] {
      EntriesLength(triples[..|triples| - 1]);
    }
  }

  ghost function KeptAll(triples: seq<Triple>): seq<Triple> {
    seq(|triples|, i requires 0 <= i < |triples| => Kept(triples[i]))
  }

  /** From the option to the text the kernel reads: triples given canonically all arrive, in order, with what can be
      kept of them; they arrive unchanged exactly if all of them are in range. */
  lemma {:induction false} OptionsReachKernel(triples: seq<Triple>, options: seq<string>, kind: char, haveCommand: bool)
    requires kind == 'u' || kind == 'g'
    requires |options| == |triples| && forall i | 0 <= i < |triples| :: options[i] == OptionText(triples[i])
    ensures Parsed(options, KeptAll(triples))
    ensures var sep := Separator(haveCommand);
            ParseText(Text(OfKind(Entries(KeptAll(triples)), kind), sep), 0, sep) == Some(KeptAll(triples))
    ensures KeptAll(triples) == triples <==> forall i | 0 <= i < |triples| :: InRange(triples[i])
  {
    forall i | 0 <= i < |options| ensures Accepts(options[i], KeptAll(triples)[i]) {
      TextAccepted(triples[i], options[i]);
    }
    EntriesOfKind(KeptAll(triples), kind);
    TextRoundTrip(Entries(KeptAll(triples)), kind, haveCommand);
    KeptAllIs(triples);
  }

  lemma {:induction false} TextAccepted(t: Triple, option: string)
    requires option == OptionText(t)
    ensures Accepts(option, Kept(t))
  {
    OptionRoundTrip(t);
    ColonsOnly(option);
    PrintDigits(t.id);
    assert option[0] == Print(t.id)[0] && IsDigit(option[0]);
  }

  lemma {:induction false} KeptAllIs(triples: seq<Triple>)
    ensures KeptAll(triples) == triples <==> forall i | 0 <= i < |triples| :: InRange(triples[i])
  {
    forall i | 0 <= i < |triples| ensures KeptAll(triples)[i] == triples[i] <==> InRange(triples[i]) {
      KeptIs(triples[i]);
    }
  }

  lemma {:induction false} EntriesOfKind(triples: seq<Triple>, kind: char)
    requires kind == 'u' || kind == 'g'
    ensures Triples(OfKind(Entries(triples), kind)) == triples
    decreases |triples|
  {
    if triples != [] {
      var most, t := triples[..|triples| - 1], triples[|triples| - 1];
      EntriesOfKind(most, kind);
      assert triples == most + [t];
      TwoMore(Entries(most), t, kind);
    }
  }

  lemma {:induction false} TwoMore(a: seq<User>, t: Triple, kind: char)
    requires kind == 'u' || kind == 'g'
    ensures Triples(OfKind(a + TwoEntries(t), kind)) == Triples(OfKind(a, kind)) + [t]
  {
    var u, g := TwoEntries(t)[0], TwoEntries(t)[1];
    OfKindMore(a, u, kind);
    OfKindMore(a + [u], g, kind);
    assert a + TwoEntries(t) == a + [u] + [g];
  }
}

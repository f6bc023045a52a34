/** What user id maps mean: the text src/user.c writes, the option src/pflask.c parses, and the translation. */
module UserMap {
  import opened Decimal
  import opened Options
  import opened Sequences

  /** struct user without its links. Ids are 32 bits wide, counts 64. */
  datatype User = User(kind: char, id: nat, hostId: nat, count: nat)

  // ---------------------------------------------------------------- text of a map

  /** The entries of one kind, in order. */
  function OfKind(users: seq<User>, kind: char): seq<User> {
    if users == [] then []
    else OfKind(users[..|users| - 1], kind) +
         (if users[|users| - 1].kind == kind then [users[|users| - 1]] else [])
  }

  function Line(u: User, sep: char): string {
    Print(u.id) + " " + Print(u.hostId) + " " + Print(u.count) + [sep]
  }

  function Text(users: seq<User>, sep: char): string {
    if users == [] then [] else Text(users[..|users| - 1], sep) + Line(users[|users| - 1], sep)
  }

  datatype Triple = Triple(id: nat, hostId: nat, count: nat)

  datatype Reading = Malformed | Got(value: nat, next: nat)

  /** A number that starts at `i` and is followed by `c`: its value, and what comes behind `c`. */
  function ReadNumber(s: string, i: nat, c: char): (r: Reading)
    requires i <= |s|
    ensures r.Got? ==> i < r.next <= |s|
  {
    var e := DigitsEnd(s, i);
    if e == i || e == |s| || s[e] != c then Malformed else
      DigitsBefore(s, i);
      Got(Value(s[i..e]), e + 1)
  }

  /** How a map is read: triples of numbers, each closed by `sep`, up to the end. */
  function ParseText(s: string, i: nat, sep: char): Option<seq<Triple>>
    requires i <= |s|
    decreases |s| - i
  {
    if i == |s| then Some([]) else
      var a := ReadNumber(s, i, ' ');
      if a.Malformed? then None else
      var b := ReadNumber(s, a.next, ' ');
      if b.Malformed? then None else
      var c := ReadNumber(s, b.next, sep);
      if c.Malformed? then None else
      var rest := ParseText(s, c.next, sep);
      if rest.None? then None else Some([Triple(a.value, b.value, c.value)] + rest.value)
  }

  function Triples(users: seq<User>): seq<Triple> {
    seq(|users|, i requires 0 <= i < |users| => Triple(users[i].id, users[i].hostId, users[i].count))
  }

  lemma {:induction false} ReadDigits(s: string, pre: string, a: string, c: char, post: string)
    requires s == pre + a + ([c] + post) && a != [] && AllDigits(a) && !IsDigit(c)
    ensures |pre| <= |s| && ReadNumber(s, |pre|, c) == Got(Value(a), |pre| + |a| + 1)
  {
    DigitsWithin(s, pre, a, [c] + post);
    var e := |pre| + |a|;
    assert s[e] == c;
    assert Value(s[|pre|..e]) == Value(a);
  }

  lemma {:induction false} ReadDigitsAt(s: string, i: nat, pre: string, a: string, c: char, post: string, next: nat)
    requires s == pre + a + ([c] + post) && a != [] && AllDigits(a) && !IsDigit(c)
    requires i == |pre| && next == i + |a| + 1
    ensures i <= |s| && ReadNumber(s, i, c) == Got(Value(a), next)
  {
    ReadDigits(s, pre, a, c, post);
  }

  lemma {:induction false} LineParts(pre: string, a: string, b: string, c: string, sep: char, post: string)
    ensures var s := pre + (a + " " + b + " " + c + [sep] + post);
            && s == pre + a + ([' '] + (b + " " + c + [sep] + post))
            && s == (pre + a + " ") + b + ([' '] + (c + [sep] + post))
            && s == (pre + a + " " + b + " ") + c + ([sep] + post)
  {}

  lemma {:induction false} ReadLine(s: string, pre: string, a: string, b: string, c: string, sep: char, post: string,
                                    j: nat, k: nat, l: nat)
    requires s == pre + (a + " " + b + " " + c + [sep] + post) && !IsDigit(sep)
    requires a != [] && b != [] && c != [] && AllDigits(a) && AllDigits(b) && AllDigits(c)
    requires j == |pre| + |a| + 1 && k == j + |b| + 1 && l == k + |c| + 1
    ensures |s| == l + |post|
    ensures ReadNumber(s, |pre|, ' ') == Got(Value(a), j)
    ensures ReadNumber(s, j, ' ') == Got(Value(b), k)
    ensures ReadNumber(s, k, sep) == Got(Value(c), l)
  {
    LineParts(pre, a, b, c, sep, post);
    ReadDigitsAt(s, |pre|, pre, a, ' ', b + " " + c + [sep] + post, j);
    ReadDigitsAt(s, j, pre + a + " ", b, ' ', c + [sep] + post, k);
    ReadDigitsAt(s, k, pre + a + " " + b + " ", c, sep, post, l);
  }

  lemma {:induction false} ParseStep(s: string, i: nat, sep: char, a: Reading, b: Reading, c: Reading,
                                     rest: seq<Triple>)
    requires i < |s| && a == ReadNumber(s, i, ' ') && a.Got?
    requires b == ReadNumber(s, a.next, ' ') && b.Got?
    requires c == ReadNumber(s, b.next, sep) && c.Got?
    requires ParseText(s, c.next, sep) == Some(rest)
    ensures ParseText(s, i, sep) == Some([Triple(a.value, b.value, c.value)] + rest)
  {}

  lemma {:induction false} ParseDigits(s: string, pre: string, a: string, b: string, c: string, sep: char,
                                       post: string, l: nat, rest: seq<Triple>)
    requires s == pre + (a + " " + b + " " + c + [sep] + post) && !IsDigit(sep)
    requires a != [] && b != [] && c != [] && AllDigits(a) && AllDigits(b) && AllDigits(c)
    requires l == |pre| + |a| + |b| + |c| + 3 <= |s| && ParseText(s, l, sep) == Some(rest)
    ensures ParseText(s, |pre|, sep) == Some([Triple(Value(a), Value(b), Value(c))] + rest)
  {
    var j, k := |pre| + |a| + 1, |pre| + |a| + |b| + 2;
    ReadLine(s, pre, a, b, c, sep, post, j, k, l);
    ParseStep(s, |pre|, sep, Got(Value(a), j), Got(Value(b), k), Got(Value(c), l), rest);
  }

  lemma {:induction false} LineDigits(u: User, sep: char, a: string, b: string, c: string)
    requires a == Print(u.id) && b == Print(u.hostId) && c == Print(u.count)
    ensures AllDigits(a) && AllDigits(b) && AllDigits(c)
    ensures Value(a) == u.id && Value(b) == u.hostId && Value(c) == u.count
    ensures Line(u, sep) == a + " " + b + " " + c + [sep]
  {
    ValuePrint(u.id);
    ValuePrint(u.hostId);
    ValuePrint(u.count);
  }

  lemma {:induction false} ParseLine(s: string, pre: string, u: User, sep: char, line: string, post: string, l: nat,
                                     rest: seq<Triple>)
    requires line == Line(u, sep) && s == pre + (line + post) && !IsDigit(sep)
    requires l == |pre| + |line| <= |s| && ParseText(s, l, sep) == Some(rest)
    ensures ParseText(s, |pre|, sep) == Some([Triple(u.id, u.hostId, u.count)] + rest)
  {
    var a, b, c := Print(u.id), Print(u.hostId), Print(u.count);
    LineDigits(u, sep, a, b, c);
    ParseDigits(s, pre, a, b, c, sep, post, l, rest);
  }

  lemma {:induction false} TextConcat(a: seq<User>, b: seq<User>, sep: char)
    ensures Text(a + b, sep) == Text(a, sep) + Text(b, sep)
    decreases |b|
  {
    if b == [] {
      assert a + b == a;
    } else {
      var n := |b| - 1;
      TextConcat(a, b[..n], sep);
      assert (a + b)[..|a + b| - 1] == a + b[..n];
      Assoc(Text(a, sep), Text(b[..n], sep), Line(b[n], sep));
    }
  }

  lemma {:induction false} ParseAll(s: string, pre: string, users: seq<User>, sep: char)
    requires s == pre + Text(users, sep) && !IsDigit(sep)
    ensures |pre| <= |s| && ParseText(s, |pre|, sep) == Some(Triples(users))
    decreases |users|
  {
    if users == [] {
      assert Triples(users) == [];
    } else {
      var u, rest := users[0], users[1..];
      TextFirst(users, sep);
      var line, post := Line(u, sep), Text(rest, sep);
      Assoc(pre, line, post);
      ParseAll(s, pre + line, rest, sep);
      ParseLine(s, pre, u, sep, line, post, |pre + line|, Triples(rest));
      TriplesFirst(users);
    }
  }

  lemma {:induction false} TriplesFirst(users: seq<User>)
    requires users != []
    ensures Triples(users) == [Triple(users[0].id, users[0].hostId, users[0].count)] + Triples(users[1..])
  {}

  lemma {:induction false} TextFirst(users: seq<User>, sep: char)
    requires users != []
    ensures Text(users, sep) == Line(users[0], sep) + Text(users[1..], sep)
  {
    var u := users[0];
    TextConcat([u], users[1..], sep);
    assert users == [u] + users[1..];
    assert [u][..0] == [] && Text([u], sep) == Line(u, sep);
  }

  /** The text made for one kind reads back as exactly the entries of that kind, in order, with either separator. */
  lemma {:induction false} TextRoundTrip(users: seq<User>, kind: char, haveCommand: bool)
    ensures var sep := Separator(haveCommand);
            ParseText(Text(OfKind(users, kind), sep), 0, sep) == Some(Triples(OfKind(users, kind)))
  {
    var sep := Separator(haveCommand);
    var t := Text(OfKind(users, kind), sep);
    assert t == [] + t;
    ParseAll(t, [], OfKind(users, kind), sep);
  }

  lemma {:induction false} LineSpelled(u: User, sep: char)
    requires u.id == 0 && u.hostId == 1000 && u.count == 1
    ensures Line(u, sep) == "0 1000 1" + [sep]
  {
    assert Print(10) == "1" + "0" && Print(100) == "10" + "0" && Print(1000) == "100" + "0";
    assert "100" + "0" == "1000" && Print(0) == "0" && Print(1) == "1";
  }

  /** The map of one id, as it is written to /proc, and as arguments of newuidmap. */
  lemma {:induction false} MapSpelled(u: User)
    requires u.id == 0 && u.hostId == 1000 && u.count == 1
    ensures Text([u], Separator(false)) == "0 1000 1\n" && Text([u], Separator(true)) == "0 1000 1 "
  {
    LineSpelled(u, '\n');
    LineSpelled(u, ' ');
    TextFirst([u], '\n');
    TextFirst([u], ' ');
    assert [u][1..] == [];
    assert "0 1000 1" + ['\n'] + [] == "0 1000 1\n" && "0 1000 1" + [' '] + [] == "0 1000 1 ";
  }

  function Separator(haveCommand: bool): char { if haveCommand then ' ' else '\n' }

  // ---------------------------------------------------------------- the --user-map option

  /** What a uid_t keeps of an unsigned long. */
  function Low32(n: nat): nat { n % 0x1_0000_0000 }

  /** A number read by strtoul that has to end at a colon. */
  function ReadField(s: string, from: nat): (r: Reading)
    requires from <= |s|
    ensures r.Got? ==> r.next <= |s|
  {
    var a := Strtoul(s, from);
    if a.end < |s| && s[a.end] == ':' then Got(a.value, a.end + 1) else Malformed
  }

  /** The last number has to end with the string. */
  function ReadLast(s: string, from: nat): (r: Reading)
    requires from <= |s|
  {
    var a := Strtoul(s, from);
    if a.end < |s| then Malformed else Got(a.value, a.end)
  }

  /** The parser in main: three numbers with colons between them; ids keep their low 32 bits. */
  function ParseOption(s: string): Option<Triple> {
    var a := ReadField(s, 0);
    if a.Malformed? then None else
    var b := ReadField(s, a.next);
    if b.Malformed? then None else
    var c := ReadLast(s, b.next);
    if c.Malformed? then None else Some(Triple(Low32(a.value), Low32(b.value), c.value))
  }

  function OptionText(t: Triple): string {
    Print(t.id) + ":" + Print(t.hostId) + ":" + Print(t.count)
  }

  /** What is left of a triple that goes through the option: no number exceeds 2^64 - 1, and of ids 32 bits remain. */
  function Kept(t: Triple): Triple { Triple(Low32(Sat(t.id)), Low32(Sat(t.hostId)), Sat(t.count)) }

  ghost predicate InRange(t: Triple) { t.id < UINT_RANGE && t.hostId < UINT_RANGE && t.count < ULONG_RANGE }

  /** Every triple written canonically is accepted; it survives exactly when its ids fit 32 bits and its count 64. */
  lemma {:induction false} OptionRoundTrip(t: Triple)
    ensures ParseOption(OptionText(t)) == Some(Kept(t))
    ensures ParseOption(OptionText(t)) == Some(t) <==> InRange(t)
  {
    ValuePrint(t.id);
    ValuePrint(t.hostId);
    ValuePrint(t.count);
    PrintedOption(OptionText(t), Print(t.id), Print(t.hostId), Print(t.count));
    KeptIs(t);
  }

  lemma {:induction false} KeptIs(t: Triple)
    ensures Kept(t) == t <==> InRange(t)
  {
    Fits(t.id);
    Fits(t.hostId);
  }

  /** The option 4294967296:0:1 is accepted; the id 2^32 is taken for id 0. */
  lemma {:induction false} LargeIdWraps(t: Triple)
    requires t.id == 0x1_0000_0000 && t.hostId == 0 && t.count == 1
    ensures ParseOption(OptionText(t)) == Some(Triple(0, 0, 1))
  {
    Arrives(t, Triple(0, 0, 1));
  }

  /** With 2^64 for id and count, the id is taken for 2^32 - 1 and the count for one less. */
  lemma {:induction false} HugeNumbersSaturate(t: Triple)
    requires t.id == t.count == 0x1_0000_0000_0000_0000 && t.hostId == 0
    ensures ParseOption(OptionText(t)) == Some(Triple(0xFFFF_FFFF, 0, 0xFFFF_FFFF_FFFF_FFFF))
  {
    Arrives(t, Triple(0xFFFF_FFFF, 0, 0xFFFF_FFFF_FFFF_FFFF));
  }

  lemma {:induction false} Arrives(t: Triple, kept: Triple)
    requires Kept(t) == kept
    ensures ParseOption(OptionText(t)) == Some(kept)
  {
    OptionRoundTrip(t);
  }

  lemma {:induction false} Fits(n: nat)
    ensures Low32(Sat(n)) == n <==> n < UINT_RANGE
  {}

  /** An option as it is to be written: three numbers, each of which may be left out, with colons between them. */
  ghost predicate OptionOf(s: string, a: Numeral, b: Numeral, c: Numeral) {
    && WellFormed(a) && WellFormed(b) && WellFormed(c)
    && s == Spelling(a) + [':'] + (Spelling(b) + [':'] + Spelling(c))
  }

  ghost function TripleOf(a: Numeral, b: Numeral, c: Numeral): Triple
    requires WellFormed(a) && WellFormed(b) && WellFormed(c)
  {
    Triple(Low32(Meaning(a)), Low32(Meaning(b)), Meaning(c))
  }

  lemma {:induction false} FieldReads(s: string, i: nat, x: Numeral, rest: string, next: nat)
    requires i <= |s| && s[i..] == Spelling(x) + [':'] + rest && WellFormed(x) && next == i + |Spelling(x)| + 1
    ensures next <= |s| && s[next..] == rest && ReadField(s, i) == Got(Meaning(x), next)
  {
    var n, post := |Spelling(x)|, [':'] + rest;
    assert s[i..] == Spelling(x) + post;
    StrtoulReads(s, i, x, post);
    assert s[i..][n] == ':' && s[i..][n + 1..] == rest;
  }

  lemma {:induction false} LastReads(s: string, i: nat, x: Numeral)
    requires i <= |s| && s[i..] == Spelling(x) && WellFormed(x)
    ensures ReadLast(s, i) == Got(Meaning(x), |s|)
  {
    assert s[i..] == Spelling(x) + [];
    StrtoulReads(s, i, x, []);
  }

  lemma {:induction false} OptionStep(s: string, a: Reading, b: Reading, c: Reading)
    requires a == ReadField(s, 0) && a.Got?
    requires b == ReadField(s, a.next) && b.Got?
    requires c == ReadLast(s, b.next) && c.Got?
    ensures ParseOption(s) == Some(Triple(Low32(a.value), Low32(b.value), c.value))
  {}

  lemma {:induction false} OptionAccepted(s: string, a: Numeral, b: Numeral, c: Numeral)
    requires OptionOf(s, a, b, c)
    ensures ParseOption(s) == Some(TripleOf(a, b, c))
  {
    var rest := Spelling(b) + [':'] + Spelling(c);
    var i := |Spelling(a)| + 1;
    var j := i + |Spelling(b)| + 1;
    assert s[0..] == s;
    FieldReads(s, 0, a, rest, i);
    FieldReads(s, i, b, Spelling(c), j);
    LastReads(s, j, c);
    OptionStep(s, Got(Meaning(a), i), Got(Meaning(b), j), Got(Meaning(c), |s|));
  }

  lemma {:induction false} ColonAt(s: string, i: nat, e: nat)
    requires i <= e < |s| && s[e] == ':'
    ensures s[i..] == s[i..e] + [':'] + s[e + 1..]
  {}

  lemma {:induction false} FieldNumeral(s: string, i: nat) returns (x: Numeral, next: nat)
    requires i <= |s| && ReadField(s, i).Got?
    ensures next == ReadField(s, i).next <= |s|
    ensures WellFormed(x) && s[i..] == Spelling(x) + [':'] + s[next..]
  {
    next := ReadField(s, i).next;
    x := StrtoulNumeral(s, i);
    ColonAt(s, i, next - 1);
  }

  lemma {:induction false} LastNumeral(s: string, i: nat) returns (x: Numeral)
    requires i <= |s| && ReadLast(s, i).Got?
    ensures WellFormed(x) && s[i..] == Spelling(x)
  {
    x := StrtoulNumeral(s, i);
    assert s[i..|s|] == s[i..];
  }

  lemma {:induction false} OptionNumerals(s: string) returns (a: Numeral, b: Numeral, c: Numeral)
    requires ParseOption(s).Some?
    ensures OptionOf(s, a, b, c)
  {
    var i, j;
    a, i := FieldNumeral(s, 0);
    b, j := FieldNumeral(s, i);
    c := LastNumeral(s, j);
    OptionFrom(s, s[i..], s[j..], a, b, c);
  }

  lemma {:induction false} OptionFrom(s: string, t: string, u: string, a: Numeral, b: Numeral, c: Numeral)
    requires WellFormed(a) && WellFormed(b) && WellFormed(c)
    requires s[0..] == Spelling(a) + [':'] + t && t == Spelling(b) + [':'] + u && u == Spelling(c)
    ensures OptionOf(s, a, b, c)
  {
    assert s[0..] == s;
  }

  /** Exactly which options the parser takes, and for what. */
  lemma {:induction false} OptionExactly(s: string, t: Triple)
    ensures ParseOption(s) == Some(t) <==> exists a, b, c :: OptionOf(s, a, b, c) && t == TripleOf(a, b, c)
  {
    if ParseOption(s) == Some(t) {
      var a, b, c := OptionNumerals(s);
      OptionAccepted(s, a, b, c);
    }
    forall a, b, c | OptionOf(s, a, b, c) && t == TripleOf(a, b, c) ensures ParseOption(s) == Some(t) {
      OptionAccepted(s, a, b, c);
    }
  }

  lemma {:induction false} OneDigit(digits: string)
    requires |digits| == 1 && IsDigit(digits[0])
    ensures AllDigits(digits) && Value(digits) == digits[0] as int - '0' as int
  {
    assert digits[..0] == [];
  }

  /** Numbers may be missing: 5:: is read as 5:0:0. */
  lemma {:induction false} MissingNumbers(s: string)
    requires s == "5::"
    ensures ParseOption(s) == Some(Triple(5, 0, 0))
  {
    OneDigit("5");
    var a := PlainNumeral("5");
    assert s == "5" + [':'] + ([] + [':'] + []);
    OptionAccepted(s, a, Nothing, Nothing);
  }

  lemma {:induction false} MinusOption(s: string, x: string, y: string, z: string)
    requires s == ("-" + x) + [':'] + (y + [':'] + z) && x != [] && y != [] && z != []
    requires AllDigits(x) && AllDigits(y) && AllDigits(z)
    ensures ParseOption(s) == Some(Triple(Low32(Signed(true, Value(x))), Low32(Sat(Value(y))), Sat(Value(z))))
  {
    var a := MinusNumeral(x);
    var b := PlainNumeral(y);
    var c := PlainNumeral(z);
    OptionAccepted(s, a, b, c);
  }

  /** A number may have a minus: -1:0:1 is read as the id 2^32 - 1. */
  lemma {:induction false} MinusOne(s: string)
    requires s == "-1:0:1"
    ensures ParseOption(s) == Some(Triple(0xFFFF_FFFF, 0, 1))
  {
    OneDigit("0");
    OneDigit("1");
    assert s == ("-" + "1") + [':'] + ("0" + [':'] + "1");
    MinusOption(s, "1", "0", "1");
  }

  lemma {:induction false} MinusNumeral(digits: string) returns (x: Numeral)
    requires digits != [] && AllDigits(digits)
    ensures WellFormed(x) && Spelling(x) == "-" + digits && Meaning(x) == Signed(true, Value(digits))
  {
    x := Written([], "-", digits);
    assert [] + "-" + digits == "-" + digits;
  }

  lemma {:induction false} OptionParts(s: string, a: string, b: string, c: string)
    requires s == a + ":" + b + ":" + c
    ensures s == a + [':'] + (b + [':'] + c)
  {}

  lemma {:induction false} PrintedOption(s: string, a: string, b: string, c: string)
    requires s == a + ":" + b + ":" + c && a != [] && b != [] && c != []
    requires AllDigits(a) && AllDigits(b) && AllDigits(c)
    ensures ParseOption(s) == Some(Triple(Low32(Sat(Value(a))), Low32(Sat(Value(b))), Sat(Value(c))))
  {
    var x := PlainNumeral(a);
    var y := PlainNumeral(b);
    var z := PlainNumeral(c);
    OptionParts(s, a, b, c);
    OptionAccepted(s, x, y, z);
  }

  // ---------------------------------------------------------------- translation of ids

  ghost predicate Contains(u: User, x: nat) { u.id <= x < u.id + u.count }

  /** Under the map of one kind, id `x` inside is id `h` outside. */
  ghost predicate MapsTo(users: seq<User>, kind: char, x: nat, h: nat) {
    exists i | 0 <= i < |users| ::
      users[i].kind == kind && Contains(users[i], x) && h == users[i].hostId + (x - users[i].id)
  }

  /** What the kernel demands of a map: extents of positive length that do not overlap. */
  ghost predicate ProperMap(users: seq<User>, kind: char) {
    && (forall i | 0 <= i < |users| && users[i].kind == kind :: users[i].count > 0)
    && (forall i, j | 0 <= i < j < |users| && users[i].kind == kind && users[j].kind == kind ::
          users[i].id + users[i].count <= users[j].id || users[j].id + users[j].count <= users[i].id)
  }

  /** user_get_mapped_root as a function of the list. */
  function MappedRoot(users: seq<User>, kind: char): Option<nat> {
    if users == [] then None
    else if users[0].kind == kind && users[0].id == 0 then Some(users[0].hostId)
    else MappedRoot(users[1..], kind)
  }

  lemma {:induction false} MappedRootIs(users: seq<User>, kind: char, k: nat)
    requires k <= |users| && forall i | 0 <= i < k :: !(users[i].kind == kind && users[i].id == 0)
    ensures MappedRoot(users, kind) == MappedRoot(users[k..], kind)
  {
    if k > 0 {
      MappedRootIs(users[1..], kind, k - 1);
      assert users[1..][k - 1..] == users[k..];
    } else {
      assert users[0..] == users;
    }
  }

  predicate ForRoot(u: User, kind: char) { u.kind == kind && u.id == 0 }

  /** The search stops at entry `k`. */
  ghost predicate FirstForRoot(users: seq<User>, kind: char, k: nat) {
    k < |users| && ForRoot(users[k], kind) && forall j | 0 <= j < k :: !ForRoot(users[j], kind)
  }

  /** Entry `i` really maps id 0. */
  ghost predicate MapsRoot(users: seq<User>, kind: char, i: nat) {
    i < |users| && ForRoot(users[i], kind) && users[i].count > 0
  }

  /** What a caller can check: where the search stops, some entry does map id 0, and all that do map it alike, to the
      host id found. */
  ghost predicate RootIsClear(users: seq<User>, kind: char) {
    forall k: nat | FirstForRoot(users, kind, k) ::
      (exists i: nat :: MapsRoot(users, kind, i)) &&
      (forall i: nat | MapsRoot(users, kind, i) :: users[i].hostId == users[k].hostId)
  }

  /** The search finds the first entry for id 0, if there is one. */
  lemma {:induction false} MappedRootFound(users: seq<User>, kind: char) returns (k: nat)
    ensures k <= |users| && forall j | 0 <= j < k :: !ForRoot(users[j], kind)
    ensures if k == |users| then MappedRoot(users, kind) == None
            else FirstForRoot(users, kind, k) && MappedRoot(users, kind) == Some(users[k].hostId)
  {
    k := 0;
    while k < |users| && !ForRoot(users[k], kind)
      invariant k <= |users| && forall j | 0 <= j < k :: !ForRoot(users[j], kind)
    {
      k := k + 1;
    }
    MappedRootIs(users, kind, k);
  }

  lemma {:induction false} RootMapped(users: seq<User>, kind: char, h: nat)
    ensures MapsTo(users, kind, 0, h) <==> exists i: nat :: MapsRoot(users, kind, i) && users[i].hostId == h
  {
    if MapsTo(users, kind, 0, h) {
      var i :| 0 <= i < |users| && users[i].kind == kind && Contains(users[i], 0) &&
               h == users[i].hostId + (0 - users[i].id);
      assert MapsRoot(users, kind, i);
    }
    forall i: nat | MapsRoot(users, kind, i) && users[i].hostId == h ensures MapsTo(users, kind, 0, h) {
      assert Contains(users[i], 0);
    }
  }

  /** The mapped root is the translation of id 0, for every host id. */
  ghost predicate RootTranslates(users: seq<User>, kind: char) {
    forall h: nat :: MappedRoot(users, kind) == Some(h) <==> MapsTo(users, kind, 0, h)
  }

  /** Exactly when the search gives what the map says about id 0, for any list whatever. */
  lemma {:induction false} MappedRootExactly(users: seq<User>, kind: char)
    ensures RootTranslates(users, kind) <==> RootIsClear(users, kind)
  {
    var k := MappedRootFound(users, kind);
    forall h: nat
      ensures MapsTo(users, kind, 0, h) <==> exists i: nat :: MapsRoot(users, kind, i) && users[i].hostId == h
    {
      RootMapped(users, kind, h);
    }
    if k < |users| {
      var r := users[k].hostId;
      if RootTranslates(users, kind) {
        assert MapsTo(users, kind, 0, r);
        forall i: nat | MapsRoot(users, kind, i) ensures users[i].hostId == r {
          assert MapsTo(users, kind, 0, users[i].hostId);
        }
        assert forall j: nat | FirstForRoot(users, kind, j) :: j == k;
      }
      if RootIsClear(users, kind) {
        assert FirstForRoot(users, kind, k);
      }
    }
  }

  /** For extents of positive length that do not overlap the search is right. */
  lemma {:induction false} MappedRootTranslates(users: seq<User>, kind: char, h: nat)
    requires ProperMap(users, kind)
    ensures MappedRoot(users, kind) == Some(h) <==> MapsTo(users, kind, 0, h)
  {
    forall k: nat | FirstForRoot(users, kind, k)
      ensures MapsRoot(users, kind, k) && forall i: nat | MapsRoot(users, kind, i) :: i == k
    {
      forall i: nat | MapsRoot(users, kind, i) ensures i == k {}
    }
    assert RootIsClear(users, kind);
    MappedRootExactly(users, kind);
  }

  /** An extent of length zero is taken for a mapping of root although it maps nothing. */
  lemma {:induction false} EmptyExtentMisleads()
    ensures var users := [User('u', 0, 100000, 0)];
            MappedRoot(users, 'u') == Some(100000) && !MapsTo(users, 'u', 0, 100000)
  {}

  /** Of two extents that both begin with id 0 only the first is reported. */
  lemma {:induction false} OverlapMisleads()
    ensures var users := [User('u', 0, 1, 1), User('u', 0, 2, 1)];
            MappedRoot(users, 'u') == Some(1) && MapsTo(users, 'u', 0, 2)
  {
    var users := [User('u', 0, 1, 1), User('u', 0, 2, 1)];
    assert MapsRoot(users, 'u', 1);
    RootMapped(users, 'u', 2);
  }
}

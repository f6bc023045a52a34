/** split_str of src/util.c, with the strtok it calls, on the buffer that strtok cuts in place. */
module Util {
  import opened Sequences

  // ---------------------------------------------------------------- what the fields of a string are

  datatype Span = Span(start: nat, end: nat)

  /** The first byte at or after `i` that is not in `needle`. */
  function SkipNeedle(s: string, needle: string, i: nat): (j: nat)
    requires i <= |s|
    ensures i <= j <= |s| && (j < |s| ==> s[j] !in needle)
    decreases |s| - i
  {
    if i < |s| && s[i] in needle then SkipNeedle(s, needle, i + 1) else i
  }

  /** The first byte at or after `i` that is in `needle`. */
  function FindNeedle(s: string, needle: string, i: nat): (j: nat)
    requires i <= |s|
    ensures i <= j <= |s| && (j < |s| ==> s[j] in needle)
    ensures i < |s| && s[i] !in needle ==> i < j
    decreases |s| - i
  {
    if i < |s| && s[i] !in needle then FindNeedle(s, needle, i + 1) else i
  }

  /** The longest stretches without a byte of `needle`, from `i` on. */
  function Spans(s: string, needle: string, i: nat): (r: seq<Span>)
    requires i <= |s|
    ensures forall k | 0 <= k < |r| :: i <= r[k].start < r[k].end <= |s|
    decreases |s| - i
  {
    var j := SkipNeedle(s, needle, i);
    if j == |s| then [] else
      var e := FindNeedle(s, needle, j);
      [Span(j, e)] + Spans(s, needle, e)
  }

  ghost predicate Within(r: seq<Span>, n: nat) {
    forall k | 0 <= k < |r| :: r[k].start <= r[k].end <= n
  }

  ghost function Texts(s: string, r: seq<Span>): seq<string>
    requires Within(r, |s|)
  {
    seq(|r|, k requires 0 <= k < |r| => s[r[k].start..r[k].end])
  }

  function Fields(s: string, needle: string): (r: seq<string>)
  {
    var spans := Spans(s, needle, 0);
    seq(|spans|, k requires 0 <= k < |spans| => s[spans[k].start..spans[k].end])
  }

  /** How a list of fields is written. */
  function Join(ts: seq<string>, c: char): string {
    if ts == [] then [] else if |ts| == 1 then ts[0] else ts[0] + [c] + Join(ts[1..], c)
  }

  /** The fields by recursion on the text. */
  ghost function Pieces(s: string, needle: string): seq<string>
    decreases |s|
  {
    if s == [] then []
    else if s[0] in needle then Pieces(s[1..], needle)
    else [s[..FindNeedle(s, needle, 0)]] + Pieces(s[FindNeedle(s, needle, 0)..], needle)
  }

  lemma {:induction false} FindNeedleIs(s: string, needle: string, i: nat, j: nat)
    requires i <= j <= |s| && (j < |s| ==> s[j] in needle) && forall k | i <= k < j :: s[k] !in needle
    ensures FindNeedle(s, needle, i) == j
    decreases j - i
  {
    if i < j {
      FindNeedleIs(s, needle, i + 1, j);
    }
  }

  /** A byte of `needle` in front of the rest makes no difference. */
  lemma {:induction false} SpansPast(s: string, needle: string, i: nat)
    requires i < |s| && s[i] in needle
    ensures Spans(s, needle, i) == Spans(s, needle, i + 1)
  {}

  lemma {:induction false} FindShift(s: string, needle: string, i: nat, j: nat)
    requires i <= j <= |s|
    ensures FindNeedle(s, needle, j) == i + FindNeedle(s[i..], needle, j - i)
    decreases |s| - j
  {
    if j < |s| {
      assert s[i..][j - i] == s[j];
      if s[j] !in needle {
        FindShift(s, needle, i, j + 1);
      }
    }
  }

  lemma {:induction false} TextsFirst(s: string, f: Span, rest: seq<Span>)
    requires f.start <= f.end <= |s| && Within(rest, |s|)
    ensures Within([f] + rest, |s|)
    ensures Texts(s, [f] + rest) == [s[f.start..f.end]] + Texts(s, rest)
  {}

  /** A field in front of a separator or the end is the first piece. */
  lemma {:induction false} PieceFirst(x: string, rest: string, needle: string, s: string)
    requires s == x + rest && x != [] && (forall k | 0 <= k < |x| :: x[k] !in needle)
    requires rest != [] ==> rest[0] in needle
    ensures Pieces(s, needle) == [x] + Pieces(rest, needle)
  {
    assert forall k | 0 <= k < |x| :: s[k] == x[k];
    assert rest != [] ==> s[|x|] == rest[0];
    FindNeedleIs(s, needle, 0, |x|);
    assert s[..|x|] == x && s[|x|..] == rest;
  }

  lemma {:induction false} CutAt(s: string, i: nat, e: nat)
    requires i <= e <= |s|
    ensures s[i..] == s[i..e] + s[e..]
  {}

  lemma {:induction false} SliceWithout(s: string, i: nat, e: nat, needle: string)
    requires i <= e <= |s| && forall k | i <= k < e :: s[k] !in needle
    ensures forall k | 0 <= k < |s[i..e]| :: s[i..e][k] !in needle
  {}

  lemma {:induction false} SpansPieces(s: string, needle: string, i: nat)
    requires i <= |s|
    ensures Texts(s, Spans(s, needle, i)) == Pieces(s[i..], needle)
    decreases |s| - i
  {
    if i < |s| {
      if s[i] in needle {
        SpansPast(s, needle, i);
        SpansPieces(s, needle, i + 1);
        assert s[i..][1..] == s[i + 1..];
      } else {
        SpansPieces(s, needle, FindNeedle(s, needle, i));
        SpanPiece(s, needle, i, FindNeedle(s, needle, i));
      }
    }
  }

  lemma {:induction false} SpanPiece(s: string, needle: string, i: nat, e: nat)
    requires i < |s| && s[i] !in needle && e == FindNeedle(s, needle, i)
    requires Texts(s, Spans(s, needle, e)) == Pieces(s[e..], needle)
    ensures Texts(s, Spans(s, needle, i)) == Pieces(s[i..], needle)
  {
    TextsFirst(s, Span(i, e), Spans(s, needle, e));
    Found(s, needle, i);
    CutAt(s, i, e);
    SliceWithout(s, i, e, needle);
    PieceFirst(s[i..e], s[e..], needle, s[i..]);
  }

  lemma {:induction false} FieldsPieces(s: string, needle: string)
    ensures Fields(s, needle) == Pieces(s, needle)
  {
    SpansPieces(s, needle, 0);
    assert s[0..] == s;
  }

  lemma {:induction false} PiecesConcat(a: string, c: char, b: string, needle: string)
    requires c in needle
    ensures Pieces(a + ([c] + b), needle) == Pieces(a, needle) + Pieces(b, needle)
    decreases |a|
  {
    var t := [c] + b;
    if a == [] {
      assert a + t == t && t[1..] == b;
    } else if a[0] in needle {
      PiecesConcat(a[1..], c, b, needle);
      assert (a + t)[1..] == a[1..] + t;
    } else {
      var n := FindNeedle(a, needle, 0);
      var x, y := a[..n], a[n..];
      Found(a, needle, 0);
      PiecesConcat(y, c, b, needle);
      Assoc(x, y, t);
      PieceFirst(x, y, needle, a);
      PieceFirst(x, y + t, needle, a + t);
      Assoc([x], Pieces(y, needle), Pieces(b, needle));
    }
  }

  /** Cutting a text at a separator cuts its list of fields. */
  lemma {:induction false} FieldsConcat(a: string, c: char, b: string, needle: string)
    requires c in needle
    ensures Fields(a + [c] + b, needle) == Fields(a, needle) + Fields(b, needle)
  {
    FieldsPieces(a + [c] + b, needle);
    FieldsPieces(a, needle);
    FieldsPieces(b, needle);
    PiecesConcat(a, c, b, needle);
    Assoc(a, [c], b);
  }

  /** Two separators side by side count as one. */
  lemma {:induction false} DoubledNeedle(a: string, c: char, b: string, needle: string)
    requires c in needle
    ensures Fields(a + [c] + ([c] + b), needle) == Fields(a + [c] + b, needle)
  {
    assert [] + [c] + b == [c] + b;
    FieldsConcat(a, c, [c] + b, needle);
    FieldsConcat([], c, b, needle);
    FieldsConcat(a, c, b, needle);
    assert Fields([], needle) == [];
  }

  lemma {:induction false} OneField(t: string, c: char)
    requires t != [] && c !in t
    ensures Fields(t, [c]) == [t]
  {
    FindNeedleIs(t, [c], 0, |t|);
    assert t[0..|t|] == t && Spans(t, [c], |t|) == [];
    assert Spans(t, [c], 0) == [Span(0, |t|)];
  }

  /** Fields written with one separator between them are found again. */
  lemma {:induction false} FieldsJoin(ts: seq<string>, c: char)
    requires forall k | 0 <= k < |ts| :: ts[k] != [] && c !in ts[k]
    ensures Fields(Join(ts, c), [c]) == ts
    decreases |ts|
  {
    if ts != [] {
      OneField(ts[0], c);
      if |ts| > 1 {
        FieldsJoin(ts[1..], c);
        FieldsConcat(ts[0], c, Join(ts[1..], c), [c]);
        assert ts == [ts[0]] + ts[1..];
      }
    }
  }

  ghost predicate Inside(r: seq<Span>, p: nat) {
    exists k | 0 <= k < |r| :: r[k].start <= p < r[k].end
  }

  lemma {:induction false} InsideFirst(f: Span, rest: seq<Span>, p: nat)
    ensures Inside([f] + rest, p) <==> f.start <= p < f.end || Inside(rest, p)
  {
    var r := [f] + rest;
    if f.start <= p < f.end {
      assert r[0] == f;
    } else if Inside(rest, p) {
      var k :| 0 <= k < |rest| && rest[k].start <= p < rest[k].end;
      assert r[k + 1] == rest[k];
    }
  }

  ghost predicate Bounded(r: seq<Span>, s: string, needle: string, i: nat) {
    && (forall k | 0 <= k < |r| :: i <= r[k].start < r[k].end <= |s|)
    && (forall k | 0 <= k < |r| :: r[k].start == i || s[r[k].start - 1] in needle)
    && (forall k | 0 <= k < |r| :: r[k].end == |s| || s[r[k].end] in needle)
  }

  /** The fields are stretches that cover exactly the bytes other than separators. */
  lemma {:induction false} SpansCover(s: string, needle: string, i: nat, p: nat)
    requires i <= p < |s|
    ensures s[p] !in needle <==> Inside(Spans(s, needle, i), p)
    decreases |s| - i
  {
    var j := SkipNeedle(s, needle, i);
    Skipped(s, needle, i);
    if j < |s| {
      var e := FindNeedle(s, needle, j);
      Found(s, needle, j);
      InsideFirst(Span(j, e), Spans(s, needle, e), p);
      if p >= e {
        SpansCover(s, needle, e, p);
      }
    }
  }

  /** They are the longest such stretches: each has a separator or an end of the string on either side. */
  lemma {:induction false} SpansBounded(s: string, needle: string, i: nat)
    requires i <= |s|
    ensures Bounded(Spans(s, needle, i), s, needle, i)
    decreases |s| - i
  {
    var j := SkipNeedle(s, needle, i);
    Skipped(s, needle, i);
    if j < |s| {
      var e := FindNeedle(s, needle, j);
      SpansBounded(s, needle, e);
      NoFieldAt(s, needle, e);
      BoundedMore(Span(j, e), Spans(s, needle, e), s, needle, i, e);
    }
  }

  lemma {:induction false} NoFieldAt(s: string, needle: string, e: nat)
    requires e <= |s| && (e < |s| ==> s[e] in needle)
    ensures forall k | 0 <= k < |Spans(s, needle, e)| :: Spans(s, needle, e)[k].start > e
  {
    if e < |s| {
      SpansPast(s, needle, e);
    }
  }

  lemma {:induction false} BoundedMore(f: Span, rest: seq<Span>, s: string, needle: string, i: nat, e: nat)
    requires i <= f.start < f.end == e <= |s|
    requires (f.start == i || s[f.start - 1] in needle) && (e == |s| || s[e] in needle)
    requires Bounded(rest, s, needle, e) && forall k | 0 <= k < |rest| :: rest[k].start > e
    ensures Bounded([f] + rest, s, needle, i)
  {}

  lemma {:induction false} Skipped(s: string, needle: string, i: nat)
    requires i <= |s|
    ensures forall k | i <= k < SkipNeedle(s, needle, i) :: s[k] in needle
    ensures i < SkipNeedle(s, needle, i) ==> s[SkipNeedle(s, needle, i) - 1] in needle
    decreases |s| - i
  {
    if i < |s| && s[i] in needle {
      Skipped(s, needle, i + 1);
    }
  }

  lemma {:induction false} Found(s: string, needle: string, i: nat)
    requires i <= |s|
    ensures forall k | i <= k < FindNeedle(s, needle, i) :: s[k] !in needle
    decreases |s| - i
  {
    if i < |s| && s[i] !in needle {
      Found(s, needle, i + 1);
    }
  }

  /** There is a field just if there is a byte that is not a separator. */
  lemma {:induction false} FieldsExist(s: string, needle: string)
    ensures Fields(s, needle) == [] <==> forall p | 0 <= p < |s| :: s[p] in needle
  {
    var r := Spans(s, needle, 0);
    assert |Fields(s, needle)| == |r|;
    forall p | 0 <= p < |s| ensures s[p] !in needle <==> Inside(r, p) {
      SpansCover(s, needle, 0, p);
    }
    if r != [] {
      assert r[0].start <= r[0].start < r[0].end;
      assert Inside(r, r[0].start);
    }
  }

  /** Fields have no separator in them, and none is empty. */
  lemma {:induction false} FieldsPure(s: string, c: char)
    ensures forall k | 0 <= k < |Fields(s, [c])| :: Fields(s, [c])[k] != [] && c !in Fields(s, [c])[k]
  {
    var r := Spans(s, [c], 0);
    forall k, p | 0 <= k < |r| && r[k].start <= p < r[k].end ensures s[p] != c {
      SpansCover(s, [c], 0, p);
      assert Inside(r, p);
    }
  }

  // ---------------------------------------------------------------- the buffer

  /** From `from` on the buffer still holds the string, with its NUL. */
  ghost predicate Rest(buf: array<char>, s: string, from: nat)
    reads buf
  {
    && |s| < buf.Length && from <= |s| && '\0' !in s && buf[|s|] == '\0'
    && forall k | from <= k < |s| :: buf[k] == s[k]
  }

  /** At `f.start` there is a C string: that field of `s`. */
  ghost predicate Cut(b: seq<char>, s: string, f: Span) {
    f.start <= f.end <= |s| && f.end < |b| && b[f.end] == '\0' && forall k | f.start <= k < f.end :: b[k] == s[k]
  }

  /** strspn(buf + i, needle), as the index it leads to */
  method SkipBytes(buf: array<char>, needle: string, i: nat, ghost s: string) returns (j: nat)
    requires Rest(buf, s, i) && '\0' !in needle
    ensures j == SkipNeedle(s, needle, i)
  {
    j := i;
    while buf[j] in needle
      invariant i <= j <= |s| && SkipNeedle(s, needle, j) == SkipNeedle(s, needle, i)
      decreases |s| - j
    {
      j := j + 1;
    }
  }

  /** strcspn(buf + i, needle), as the index it leads to */
  method FindBytes(buf: array<char>, needle: string, i: nat, ghost s: string) returns (j: nat)
    requires Rest(buf, s, i)
    ensures j == FindNeedle(s, needle, i)
  {
    j := i;
    while buf[j] != '\0' && buf[j] !in needle
      invariant i <= j <= |s| && FindNeedle(s, needle, j) == FindNeedle(s, needle, i)
      decreases |s| - j
    {
      j := j + 1;
    }
  }

  /** strtok, with its hidden pointer as parameter and result; -1 stands for NULL. */
  method Strtok(buf: array<char>, needle: string, from: nat, ghost s: string) returns (token: int, saved: nat)
    requires Rest(buf, s, from) && '\0' !in needle
    modifies buf
    ensures Rest(buf, s, saved) && from <= saved
    ensures token == -1 ==> Spans(s, needle, from) == [] == Spans(s, needle, saved) && buf[..] == old(buf[..])
    ensures token != -1 ==>
              var r := Spans(s, needle, from);
              && r != [] && r == [r[0]] + Spans(s, needle, saved)
              && token == r[0].start && Cut(buf[..], s, r[0]) && (r[0].end < saved || saved == |s|)
              && buf[..from] == old(buf[..from])
  {
    var j := SkipBytes(buf, needle, from, s);
    if buf[j] == '\0' {
      return -1, j;
    }
    var e := FindBytes(buf, needle, j, s);
    Found(s, needle, j);
    assert Spans(s, needle, from) == [Span(j, e)] + Spans(s, needle, e);
    if buf[e] == '\0' {
      return j, e;
    }
    buf[e] := '\0';
    SpansPast(s, needle, e);
    return j, e + 1;
  }

  /** The first fields have been cut off and their offsets noted. */
  ghost predicate Done(b: seq<char>, s: string, all: seq<Span>, dest: seq<int>, saved: nat) {
    && |dest| <= |all|
    && (forall k | 0 <= k < |dest| :: dest[k] == all[k].start && Cut(b, s, all[k]))
    && (saved == |s| || forall k | 0 <= k < |dest| :: all[k].end < saved)
  }

  /** One turn: what was cut off before stays as it is. */
  lemma {:induction false} DoneMore(b: seq<char>, b': seq<char>, s: string, all: seq<Span>, dest: seq<int>,
                                    saved: nat, saved': nat)
    requires Done(b, s, all, dest, saved) && |dest| < |all| && |b| == |b'| && saved < |s|
    requires saved <= saved' && saved <= |b| && b[..saved] == b'[..saved]
    requires Cut(b', s, all[|dest|]) && (all[|dest|].end < saved' || saved' == |s|)
    ensures Done(b', s, all, dest + [all[|dest|].start], saved')
  {
    forall k | 0 <= k < |dest| ensures Cut(b', s, all[k]) {
      var f := all[k];
      assert b'[f.end] == b'[..saved][f.end] == b[f.end];
      forall i | f.start <= i < f.end ensures b'[i] == s[i] {
        assert b'[i] == b'[..saved][i] == b[i];
      }
    }
  }

  /** After a call of strtok: there is one field more, or all of them have been cut off. */
  ghost predicate Turn(buf: array<char>, needle: string, s: string, all: seq<Span>, got: seq<int>,
                       token: int, saved: nat)
    reads buf
  {
    Rest(buf, s, saved) &&
    if token == -1 then |got| == |all| && Spans(s, needle, saved) == [] && Done(buf[..], s, all, got, saved)
    else Done(buf[..], s, all, got + [token], saved) && all[|got| + 1..] == Spans(s, needle, saved)
  }

  /** A call of strtok within split_str; `got` are the tokens so far. */
  method NextField(buf: array<char>, needle: string, from: nat,
                   ghost s: string, ghost all: seq<Span>, ghost got: seq<int>)
      returns (token: int, saved: nat)
    requires Rest(buf, s, from) && '\0' !in needle
    requires Done(buf[..], s, all, got, from) && all[|got|..] == Spans(s, needle, from)
    modifies buf
    ensures Turn(buf, needle, s, all, got, token, saved)
  {
    token, saved := Strtok(buf, needle, from, s);
    if token != -1 {
      assert all[|got|..][0] == all[|got|] && all[|got|..][1..] == all[|got| + 1..];
      assert from < |s|;
      assert buf[..][..from] == buf[..from];
      DoneMore(old(buf[..]), buf[..], s, all, got, from, saved);
    }
  }

  /**
   * split_str: the offsets of the fields in the buffer, each of them a C string there. A string without fields
   * gives one NULL.
   */
  method SplitStr(buf: array<char>, needle: string, ghost s: string) returns (dest: seq<int>)
    requires Rest(buf, s, 0) && '\0' !in needle
    modifies buf
    ensures var all := Spans(s, needle, 0);
            if all == [] then dest == [-1]
            else |dest| == |all| && forall k | 0 <= k < |dest| :: dest[k] == all[k].start && Cut(buf[..], s, all[k])
  {
    ghost var all := Spans(s, needle, 0);
    var token, saved := NextField(buf, needle, 0, s, all, []);
    dest := [token];
    ghost var none := token == -1;
    token, saved := NextField(buf, needle, saved, s, all, if none then [] else dest);
    while token != -1
      invariant if none then token == -1 && dest == [-1] else Turn(buf, needle, s, all, dest, token, saved)
      decreases |all| - |dest|, token != -1
    {
      dest, token, saved := StoreField(buf, needle, s, all, dest, token, saved);
    }
  }

  /** The body of the loop: `(*dest)[size++] = token`, then the next call of strtok. */
  method StoreField(buf: array<char>, needle: string, ghost s: string, ghost all: seq<Span>,
                    dest: seq<int>, token: int, from: nat) returns (dest': seq<int>, token': int, saved: nat)
    requires Turn(buf, needle, s, all, dest, token, from) && token != -1 && '\0' !in needle
    modifies buf
    ensures Turn(buf, needle, s, all, dest', token', saved) && |dest| < |dest'| <= |all|
  {
    dest' := dest + [token];
    token', saved := NextField(buf, needle, from, s, all, dest');
  }
}

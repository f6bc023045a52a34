/** What the comma-separated values of src/cmdline.c mean. Strings are C strings without their NUL. */
module Tokens {

  const COMMA: char := ','
  const BACKSLASH: char := '\\'

  /** The first comma at or after `i` that no backslash precedes, or the end of the string. The byte in front of
      the string is taken not to be a backslash. */
  function SepFrom(s: string, i: nat): (p: nat)
    requires i <= |s|
    ensures i <= p <= |s|
    decreases |s| - i
  {
    if i == |s| then |s|
    else if s[i] == COMMA && (i == 0 || s[i - 1] != BACKSLASH) then i
    else SepFrom(s, i + 1)
  }

  function Sep(s: string): (p: nat)
    ensures p <= |s|
  {
    SepFrom(s, 0)
  }

  /** Drops every backslash that stands in front of a comma. */
  function Unescape(x: string): string {
    if x == [] then []
    else if x[0] == BACKSLASH && |x| > 1 && x[1] == COMMA then [COMMA] + Unescape(x[2..])
    else [x[0]] + Unescape(x[1..])
  }

  function Escape(t: string): string {
    if t == [] then []
    else (if t[0] == COMMA then [BACKSLASH, COMMA] else [t[0]]) + Escape(t[1..])
  }

  /** The values an option argument stands for. A comma at its very end opens no further value. */
  function Split(s: string): seq<string>
    decreases |s|
  {
    var p := Sep(s);
    if p >= |s| - 1 then [Unescape(s[..p])] else [Unescape(s[..p])] + Split(s[p + 1..])
  }

  /** How a list of values is written on the command line. */
  function Print(ts: seq<string>): string
    requires ts != []
  {
    if |ts| == 1 then Escape(ts[0]) else Escape(ts[0]) + [COMMA] + Print(ts[1..])
  }

  ghost predicate EndsInBackslash(t: string) {
    t != [] && t[|t| - 1] == BACKSLASH
  }

  ghost predicate EndsInSep(s: string) {
    s != [] && s[|s| - 1] == COMMA && !EndsInBackslash(s[..|s| - 1])
  }

  /** Every comma has its backslash. */
  ghost predicate Closed(x: string) {
    forall i | 0 <= i < |x| && x[i] == COMMA :: i > 0 && x[i - 1] == BACKSLASH
  }

  // ---------------------------------------------------------------- separators

  lemma {:induction false} SepIsFirst(s: string, i: nat)
    requires i <= |s|
    ensures var p := SepFrom(s, i);
            && (p < |s| ==> s[p] == COMMA && (p == 0 || s[p - 1] != BACKSLASH))
            && forall k | i <= k < p && s[k] == COMMA :: k > 0 && s[k - 1] == BACKSLASH
    decreases |s| - i
  {
    if i < |s| && !(s[i] == COMMA && (i == 0 || s[i - 1] != BACKSLASH)) {
      SepIsFirst(s, i + 1);
    }
  }

  lemma {:induction false} SepUnique(s: string, i: nat, p: nat)
    requires i <= p <= |s|
    requires p < |s| ==> s[p] == COMMA && (p == 0 || s[p - 1] != BACKSLASH)
    requires forall k | i <= k < p && s[k] == COMMA :: k > 0 && s[k - 1] == BACKSLASH
    ensures SepFrom(s, i) == p
    decreases p - i
  {
    if i < p {
      SepUnique(s, i + 1, p);
    }
  }

  lemma {:induction false} HeadClosed(s: string)
    ensures Closed(s[..Sep(s)])
    ensures Sep(s) < |s| ==> s[Sep(s)] == COMMA && !EndsInBackslash(s[..Sep(s)])
  {
    SepIsFirst(s, 0);
  }

  // ---------------------------------------------------------------- escapes

  lemma {:induction false} EscapeUnescape(x: string)
    requires Closed(x)
    ensures Escape(Unescape(x)) == x
    decreases |x|
  {
    if x != [] {
      if x[0] == BACKSLASH && |x| > 1 && x[1] == COMMA {
        EscapeUnescape(x[2..]);
        assert ([COMMA] + Unescape(x[2..]))[1..] == Unescape(x[2..]);
        assert x == [BACKSLASH, COMMA] + x[2..];
      } else {
        EscapeUnescape(x[1..]);
        assert ([x[0]] + Unescape(x[1..]))[1..] == Unescape(x[1..]);
      }
    }
  }

  lemma {:induction false} EscapeClosed(t: string)
    ensures Closed(Escape(t)) && EndsInBackslash(Escape(t)) == EndsInBackslash(t)
    ensures t != [] ==> Escape(t) != []
  {
    if t != [] {
      var r := Escape(t[1..]);
      EscapeClosed(t[1..]);
      if t[0] == COMMA {
        ClosedConcat([BACKSLASH, COMMA], r);
      } else {
        ClosedConcat([t[0]], r);
      }
    }
  }

  lemma {:induction false} ClosedConcat(a: string, b: string)
    requires Closed(a) && Closed(b)
    ensures Closed(a + b)
  {}

  lemma {:induction false} UnescapeEscape(t: string)
    ensures Unescape(Escape(t)) == t
  {
    if t != [] {
      var r := Escape(t[1..]);
      UnescapeEscape(t[1..]);
      if t[0] == COMMA {
        assert ([BACKSLASH, COMMA] + r)[2..] == r;
      } else {
        EscapeClosed(t[1..]);
        assert ([t[0]] + r)[1..] == r;
      }
    }
  }

  lemma {:induction false} UnescapeEnd(x: string)
    requires !EndsInBackslash(x)
    ensures !EndsInBackslash(Unescape(x))
    decreases |x|
  {
    if x != [] {
      if x[0] == BACKSLASH && |x| > 1 && x[1] == COMMA {
        UnescapeEnd(x[2..]);
      } else {
        UnescapeEnd(x[1..]);
      }
    }
  }

  // ---------------------------------------------------------------- round trips

  /** Printing the values of an argument gives the argument back, up to one separator at its very end. */
  lemma {:induction false} PrintSplit(s: string)
    ensures Print(Split(s)) == if EndsInSep(s) then s[..|s| - 1] else s
    decreases |s|
  {
    var p := Sep(s);
    HeadClosed(s);
    EscapeUnescape(s[..p]);
    if p == |s| {
      assert s[..p] == s;
    } else if p < |s| - 1 {
      PrintSplit(s[p + 1..]);
      SplitMore(s, p);
      EndsOfRest(s, p);
      Rejoin(s, p);
    }
  }

  lemma {:induction false} SplitMore(s: string, p: nat)
    requires p == Sep(s) < |s| - 1
    ensures Print(Split(s)) == Escape(Unescape(s[..p])) + [COMMA] + Print(Split(s[p + 1..]))
  {
    assert Split(s)[1..] == Split(s[p + 1..]);
  }

  lemma {:induction false} Rejoin(s: string, p: nat)
    requires p < |s| - 1 && s[p] == COMMA
    ensures s == s[..p] + [COMMA] + s[p + 1..]
    ensures s[..|s| - 1] == s[..p] + [COMMA] + s[p + 1..][..|s| - p - 2]
  {}

  lemma {:induction false} EndsOfRest(s: string, p: nat)
    requires p < |s| - 1 && s[p] == COMMA
    ensures EndsInSep(s) <==> EndsInSep(s[p + 1..])
  {
    var rest := s[p + 1..];
    assert rest[|rest| - 1] == s[|s| - 1];
    if |rest| > 1 {
      assert rest[|rest| - 2] == s[|s| - 2];
    }
  }

  /** The value lists that the syntax can express. */
  ghost predicate Printable(ts: seq<string>) {
    && ts != []
    && (forall i | 0 <= i < |ts| - 1 :: !EndsInBackslash(ts[i]))
    && (|ts| > 1 ==> ts[|ts| - 1] != [])
  }

  lemma {:induction false} SepOfPrint(t: string, rest: string)
    requires !EndsInBackslash(t)
    ensures Sep(Escape(t) + [COMMA] + rest) == |Escape(t)|
  {
    var e := Escape(t);
    var s := e + [COMMA] + rest;
    EscapeClosed(t);
    assert s[..|e|] == e;
    forall k | 0 <= k < |e| && s[k] == COMMA ensures k > 0 && s[k - 1] == BACKSLASH {
      assert e[k] == COMMA;
    }
    SepUnique(s, 0, |e|);
  }

  lemma {:induction false} SplitPrint(ts: seq<string>)
    requires Printable(ts)
    ensures Split(Print(ts)) == ts
    decreases |ts|
  {
    var e := Escape(ts[0]);
    EscapeClosed(ts[0]);
    UnescapeEscape(ts[0]);
    if |ts| == 1 {
      SepUnique(e, 0, |e|);
      assert e[..|e|] == e;
    } else {
      SplitPrint(ts[1..]);
      PrintNonEmpty(ts[1..]);
      SplitOneMore(ts[0], Print(ts[1..]));
    }
  }

  lemma {:induction false} SplitOneMore(t: string, rest: string)
    requires !EndsInBackslash(t) && rest != []
    ensures Split(Escape(t) + [COMMA] + rest) == [t] + Split(rest)
  {
    var e := Escape(t);
    var s := e + [COMMA] + rest;
    SepOfPrint(t, rest);
    UnescapeEscape(t);
    assert s[..|e|] == e && s[|e| + 1..] == rest;
  }

  lemma {:induction false} PrintNonEmpty(ts: seq<string>)
    requires ts != [] && (|ts| == 1 ==> ts[0] != [])
    ensures Print(ts) != []
  {
    EscapeClosed(ts[0]);
  }

  /** No value but the last of a split ends in a backslash. */
  lemma {:induction false} SplitEnds(s: string)
    ensures forall i | 0 <= i < |Split(s)| - 1 :: !EndsInBackslash(Split(s)[i])
    decreases |s|
  {
    var p := Sep(s);
    if p < |s| - 1 {
      HeadClosed(s);
      UnescapeEnd(s[..p]);
      SplitEnds(s[p + 1..]);
    }
  }

  /** Exactly the printable lists survive being printed and split. */
  lemma {:induction false} SplitPrintExactly(ts: seq<string>)
    requires ts != []
    ensures Split(Print(ts)) == ts <==> Printable(ts)
  {
    if Printable(ts) {
      SplitPrint(ts);
    } else if Split(Print(ts)) == ts {
      SplitEnds(Print(ts));
      PrintSplit(Print(ts));
      PrintEndsInSep(ts);
      assert false;
    }
  }

  /** A backslash at the end of a value swallows the comma behind it: two values become one. */
  lemma {:induction false} BackslashJoins()
    ensures Print(["\\", "b"]) == "\\,b" && Split("\\,b") == [",b"]
  {
    var s := "\\,b";
    assert Escape("b") == "b" && Escape("\\") == "\\";
    assert SepFrom(s, 3) == SepFrom(s, 2) == SepFrom(s, 1) == SepFrom(s, 0) == 3;
    assert s[..3] == s && s[2..] == "b" && Unescape("b") == "b";
    assert Unescape(s) == ",b";
  }

  /** A comma at the very end opens no value: an empty last value is lost. */
  lemma {:induction false} EmptyLastLost()
    ensures Print(["a", ""]) == "a," && Split("a,") == ["a"]
  {
    var s := "a,";
    assert Escape("a") == "a" && SepFrom(s, 1) == SepFrom(s, 0) == 1;
    assert s[..1] == "a" && Unescape("a") == "a";
  }

  lemma {:induction false} PrintEndsInSep(ts: seq<string>)
    requires |ts| > 1 && ts[|ts| - 1] == [] && forall i | 0 <= i < |ts| - 1 :: !EndsInBackslash(ts[i])
    ensures EndsInSep(Print(ts))
    decreases |ts|
  {
    var e, rest := Escape(ts[0]), Print(ts[1..]);
    var s := e + [COMMA] + rest;
    if |ts| == 2 {
      EscapeClosed(ts[0]);
      assert s[..|s| - 1] == e;
    } else {
      PrintEndsInSep(ts[1..]);
      EndsOfRest(s, |e|);
      assert s[|e| + 1..] == rest;
    }
  }
}

/** The handling of options that may be given more than once and take comma-separated values: src/cmdline.c. */
module Cmdline {
  import opened Tokens
  import opened Options

  /** strchr from position `from`; |s| stands for NULL. */
  method StrChr(s: string, from: nat, c: char) returns (r: nat)
    requires from <= |s|
    ensures from <= r <= |s| && (r < |s| ==> s[r] == c)
    ensures forall k | from <= k < r :: s[k] != c
  {
    r := from;
    while r < |s| && s[r] != c
      invariant from <= r <= |s|
      invariant forall k | from <= k < r :: s[k] != c
    {
      r := r + 1;
    }
  }

  function Commas(x: string): nat {
    if x == [] then 0 else Commas(x[..|x| - 1]) + (if x[|x| - 1] == COMMA then 1 else 0)
  }

  lemma {:induction false} NoCommas(s: string, i: nat, j: nat)
    requires i <= j <= |s| && forall k | i <= k < j :: s[k] != COMMA
    ensures Commas(s[..j]) == Commas(s[..i])
    decreases j
  {
    if i < j {
      NoCommas(s, i, j - 1);
      assert s[..j][..j - 1] == s[..j - 1];
    }
  }

  lemma {:induction false} OneComma(s: string, i: nat)
    requires i < |s| && s[i] == COMMA
    ensures Commas(s[..i + 1]) == Commas(s[..i]) + 1
  {
    assert s[..i + 1][..i] == s[..i];
  }

  /** Unescaping drops one character for each comma, when every comma has its backslash. */
  lemma {:induction false} UnescapedLength(x: string)
    requires Closed(x)
    ensures |Unescape(x)| == |x| - Commas(x)
    decreases |x|
  {
    if x != [] {
      if x[0] == BACKSLASH && |x| > 1 && x[1] == COMMA {
        UnescapedLength(x[2..]);
        CommasConcat(x[..2], x[2..]);
        assert x[..2] == [BACKSLASH] + [COMMA] && x == x[..2] + x[2..];
        CommasConcat([BACKSLASH], [COMMA]);
        assert Commas([BACKSLASH]) == 0 && Commas([COMMA]) == 1;
      } else {
        UnescapedLength(x[1..]);
        CommasConcat([x[0]], x[1..]);
        assert x == [x[0]] + x[1..];
      }
    }
  }

  lemma {:induction false} CommasConcat(a: string, b: string)
    ensures Commas(a + b) == Commas(a) + Commas(b)
    decreases |b|
  {
    if b == [] {
      assert a + b == a;
    } else {
      CommasConcat(a, b[..|b| - 1]);
      assert (a + b)[..|a + b| - 1] == a + b[..|b| - 1];
    }
  }

  /** The loop that get_multiple_arg_token and get_multiple_arg_token_next both start with. `before` is the byte
      in front of `arg`. */
  method FindSeparator(before: char, arg: string) returns (tok: nat, escapes: nat)
    requires before != BACKSLASH
    ensures tok == Sep(arg) && escapes == Commas(arg[..tok])
  {
    tok := StrChr(arg, 0, COMMA);
    escapes := 0;
    NoCommas(arg, 0, tok);
    while tok < |arg|
      invariant tok <= |arg| && (tok < |arg| ==> arg[tok] == COMMA)
      invariant forall k | 0 <= k < tok && arg[k] == COMMA :: k > 0 && arg[k - 1] == BACKSLASH
      invariant escapes == Commas(arg[..tok])
      decreases |arg| - tok
    {
      if (if tok == 0 then before else arg[tok - 1]) == BACKSLASH {
        OneComma(arg, tok);
        ghost var was := tok;
        tok := StrChr(arg, tok + 1, COMMA);
        NoCommas(arg, was + 1, tok);
        escapes := escapes + 1;
      } else {
        break;
      }
    }
    SepUnique(arg, 0, tok);
  }

  /** get_multiple_arg_token: a fresh, NUL-terminated buffer of exactly the right size. */
  method GetMultipleArgToken(before: char, arg: string) returns (ret: array<char>)
    requires before != BACKSLASH
    ensures fresh(ret) && ret.Length == |Unescape(arg[..Sep(arg)])| + 1
    ensures ret[..] == Unescape(arg[..Sep(arg)]) + ['\0']
  {
    var tok, escapes := FindSeparator(before, arg);
    HeadClosed(arg);
    UnescapedLength(arg[..tok]);
    var len := tok + 1 - escapes;
    ret := new char[len];
    var i, j := 0, 0;
    assert arg[0..tok] == arg[..tok];
    while i < |arg| && j < len - 1
      invariant i <= tok && j <= len - 1
      invariant ret[..j] + Unescape(arg[i..tok]) == Unescape(arg[..tok])
      decreases |arg| - i
    {
      i := CopyOne(ret, j, arg, i, tok);
      j := j + 1;
    }
    // the two scans agree: the copy ends at the separator with the buffer full
    NothingLeft(arg, i, tok);
    assert i == tok && j == len - 1;
    ret[len - 1] := '\0';
    assert ret[..] == ret[..len - 1] + ['\0'];
  }

  /** Unescaping what is left of a value, one character on. */
  lemma {:induction false} FirstUnescaped(arg: string, i: nat, tok: nat)
    requires tok == Sep(arg) && i <= tok
    requires |Unescape(arg[i..tok])| > 0
    ensures i < tok
    ensures var two := arg[i] == BACKSLASH && i + 1 < |arg| && arg[i + 1] == COMMA;
            var next := if two then i + 2 else i + 1;
            next <= tok && Unescape(arg[i..tok]) == [arg[next - 1]] + Unescape(arg[next..tok])
  {
    HeadClosed(arg);
    var x := arg[i..tok];
    if arg[i] == BACKSLASH && i + 1 < |arg| && arg[i + 1] == COMMA {
      assert i + 1 == tok ==> EndsInBackslash(arg[..tok]);
      assert x[2..] == arg[i + 2..tok];
    } else {
      assert x[1..] == arg[i + 1..tok];
    }
  }

  /** The body of the copying loop. */
  method CopyOne(ret: array<char>, j: nat, arg: string, i: nat, ghost tok: nat) returns (i': nat)
    requires j < ret.Length && tok == Sep(arg) && i <= tok && i < |arg| && |Unescape(arg[i..tok])| > 0
    modifies ret
    ensures i < i' <= tok
    ensures ret[..j + 1] + Unescape(arg[i'..tok]) == old(ret[..j]) + Unescape(arg[i..tok])
  {
    FirstUnescaped(arg, i, tok);
    i' := i;
    if arg[i] == BACKSLASH && i + 1 < |arg| && arg[i + 1] == COMMA {
      i' := i' + 1;
    }
    ret[j] := arg[i'];
    assert ret[..j + 1] == old(ret[..j]) + [arg[i']];
    i' := i' + 1;
  }

  lemma {:induction false} NothingLeft(arg: string, i: nat, tok: nat)
    requires i <= tok <= |arg| && (i == |arg| || Unescape(arg[i..tok]) == [])
    ensures i == tok
  {}

  /** get_multiple_arg_token_next: where the next value starts, if there is one. */
  method GetMultipleArgTokenNext(before: char, arg: string) returns (next: Option<nat>)
    requires before != BACKSLASH
    ensures next == if Sep(arg) >= |arg| - 1 then None else Some(Sep(arg) + 1)
  {
    var tok, _ := FindSeparator(before, arg);
    if tok == |arg| || |arg| - tok == 1 {
      next := None;
    } else {
      next := Some(tok + 1);
    }
  }
}

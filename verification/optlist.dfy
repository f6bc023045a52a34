/** How the values of all occurrences of a multiple option are collected and stored: src/cmdline.c. */
module OptList {
  import opened Tokens
  import opened Cmdline
  import opened Options
  import opened Sequences

  /** struct generic_list, for options with string values. */
  class GenericList {
    var stringArg: Option<string>
    var orig: Option<string>
    var next: GenericList?

    /** The allocation and the stores of add_node. */
    constructor (next: GenericList?)
      ensures this.next == next && stringArg == None && orig == None
    {
      this.next := next;
      stringArg, orig := None, None;
    }
  }

  /** `list` is the chain `nodes`, which holds `values` in reverse order. */
  ghost predicate Holds(list: GenericList?, nodes: seq<GenericList>, values: seq<Option<string>>)
    reads nodes
  {
    && |nodes| == |values|
    && (if nodes == [] then list == null else list == nodes[0])
    && (forall i, j | 0 <= i < j < |nodes| :: nodes[i] != nodes[j])
    && (forall i {:trigger nodes[i].next} | 0 <= i < |nodes| ::
          nodes[i].next == if i + 1 < |nodes| then nodes[i + 1] else null)
    && (forall i {:trigger nodes[i].stringArg} | 0 <= i < |nodes| ::
          nodes[i].stringArg == nodes[i].orig == values[|values| - 1 - i])
  }

  lemma {:induction false} HoldsCons(node: GenericList, value: Option<string>, nodes: seq<GenericList>,
                                     values: seq<Option<string>>, nodes': seq<GenericList>,
                                     values': seq<Option<string>>)
    requires Holds(node.next, nodes, values) && node !in nodes && node.stringArg == node.orig == value
    requires nodes' == [node] + nodes && values' == values + [value]
    ensures Holds(node, nodes', values')
  {
    forall i, j | 0 <= i < j < |nodes'| ensures nodes'[i] != nodes'[j] {
      assert nodes'[j] == nodes[j - 1];
      if i > 0 {
        assert nodes'[i] == nodes[i - 1];
      }
    }
    forall i {:trigger nodes'[i].stringArg} | 0 <= i < |nodes'|
      ensures nodes'[i].stringArg == nodes'[i].orig == values'[|values'| - 1 - i]
    {
      if i > 0 {
        assert nodes'[i] == nodes[i - 1] && nodes[i - 1].stringArg == values[|values| - 1 - (i - 1)];
      }
    }
    forall i {:trigger nodes'[i].next} | 0 <= i < |nodes'|
      ensures nodes'[i].next == if i + 1 < |nodes'| then nodes'[i + 1] else null
    {
      if i > 0 {
        assert nodes'[i] == nodes[i - 1] && nodes[i - 1].next == if i < |nodes| then nodes[i] else null;
      }
    }
  }

  /** One occurrence of the option: the byte in front of its argument, and the argument, if it has one. */
  datatype Occurrence = Occurrence(before: char, val: Option<string>)

  function Wrap(ts: seq<string>): (r: seq<Option<string>>)
    ensures |r| == |ts| && forall i | 0 <= i < |ts| :: r[i] == Some(ts[i])
  {
    seq(|ts|, i requires 0 <= i < |ts| => Some(ts[i]))
  }

  /** The values of one occurrence; an option given without an argument counts as one absent value. */
  function ValuesOf(val: Option<string>): seq<Option<string>> {
    match val
    case None => [None]
    case Some(s) => Wrap(Split(s))
  }

  function ValuesEach(occurrences: seq<Occurrence>): (r: seq<seq<Option<string>>>)
    ensures |r| == |occurrences|
  {
    seq(|occurrences|, k requires 0 <= k < |occurrences| => ValuesOf(occurrences[k].val))
  }

  /** The values of all occurrences, in command-line order. */
  function AllValues(occurrences: seq<Occurrence>): seq<Option<string>> { Flat(ValuesEach(occurrences)) }

  lemma {:induction false} ValuesNext(occurrences: seq<Occurrence>, k: nat)
    requires k < |occurrences|
    ensures AllValues(occurrences[..k + 1]) == AllValues(occurrences[..k]) + ValuesOf(occurrences[k].val)
  {
    FlatMore(ValuesEach(occurrences[..k]), ValuesOf(occurrences[k].val), ValuesEach(occurrences[..k + 1]));
  }

  /** Splitting the command line splits the values. */
  lemma {:induction false} ValuesInOrder(a: seq<Occurrence>, b: seq<Occurrence>)
    ensures AllValues(a + b) == AllValues(a) + AllValues(b)
  {
    assert ValuesEach(a + b) == ValuesEach(a) + ValuesEach(b);
    FlatConcat(ValuesEach(a), ValuesEach(b));
  }

  /** An occurrence without an argument is one absent value; otherwise its values are those of its argument. */
  lemma {:induction false} OneOccurrence(o: Occurrence)
    ensures o.val == None ==> AllValues([o]) == [None]
    ensures o.val.Some? ==> |AllValues([o])| == |Split(o.val.value)| &&
                            forall k | 0 <= k < |Split(o.val.value)| :: AllValues([o])[k] == Some(Split(o.val.value)[k])
  {
    FlatMore([], ValuesOf(o.val), ValuesEach([o]));
  }

  /** The occurrences are given lists of values, written as the manual says. */
  ghost predicate Written(occurrences: seq<Occurrence>, tss: seq<seq<string>>) {
    |occurrences| == |tss| &&
    forall k | 0 <= k < |tss| :: Printable(tss[k]) && occurrences[k].val == Some(Print(tss[k]))
  }

  lemma {:induction false} WrittenValues(occurrences: seq<Occurrence>, tss: seq<seq<string>>, k: nat)
    requires Written(occurrences, tss) && k < |tss|
    ensures ValuesEach(occurrences)[k] == Wrap(tss[k])
  {
    SplitPrint(tss[k]);
  }

  lemma {:induction false} SameCount(occurrences: seq<Occurrence>, tss: seq<seq<string>>, k: nat)
    requires Written(occurrences, tss) && k <= |tss|
    ensures CountTo(ValuesEach(occurrences), k) == CountTo(tss, k)
  {
    if k > 0 {
      SameCount(occurrences, tss, k - 1);
      WrittenValues(occurrences, tss, k - 1);
      assert |Wrap(tss[k - 1])| == |tss[k - 1]|;
    }
  }

  /** What stands at a place of the final array. */
  ghost predicate InPlace(final: seq<Option<string>>, at: int, value: string) {
    0 <= at < |final| && final[at] == Some(value)
  }

  /** The `j`-th value of the `k`-th occurrence: behind what was kept and all values before it. */
  lemma {:induction false} ValueAt(occurrences: seq<Occurrence>, tss: seq<seq<string>>, kept: seq<Option<string>>,
                                   final: seq<Option<string>>, k: nat, j: nat)
    requires Written(occurrences, tss) && k < |tss| && j < |tss[k]| && final == kept + AllValues(occurrences)
    ensures InPlace(final, |kept| + CountTo(tss, k) + j, tss[k][j])
  {
    SameCount(occurrences, tss, k);
    WrittenValues(occurrences, tss, k);
    FlatAt(ValuesEach(occurrences), k, j);
  }

  /** `kept`, then the given values, list by list, and each list in order; and nothing else. */
  ghost predicate InOrder(final: seq<Option<string>>, kept: seq<Option<string>>, tss: seq<seq<string>>) {
    && |final| == |kept| + CountTo(tss, |tss|) && kept <= final
    && forall k: nat, j: nat | k < |tss| && j < |tss[k]| :: InPlace(final, |kept| + CountTo(tss, k) + j, tss[k][j])
  }

  /** What a parse leaves in the array. */
  lemma {:induction false} PrintedInOrder(occurrences: seq<Occurrence>, tss: seq<seq<string>>,
                                          kept: seq<Option<string>>, final: seq<Option<string>>)
    requires Written(occurrences, tss) && final == kept + AllValues(occurrences)
    ensures InOrder(final, kept, tss)
  {
    SameCount(occurrences, tss, |tss|);
    FlatLength(ValuesEach(occurrences), |tss|);
    assert ValuesEach(occurrences)[..|tss|] == ValuesEach(occurrences);
    forall k: nat, j: nat | k < |tss| && j < |tss[k]|
      ensures InPlace(final, |kept| + CountTo(tss, k) + j, tss[k][j])
    {
      ValueAt(occurrences, tss, kept, final, k, j);
    }
  }

  /** The local variables of cmdline_parser_internal for one option: mount_list and local_args_info.mount_given. */
  class Collector {
    var list: GenericList?
    var prevGiven: nat
    ghost var nodes: seq<GenericList>
    ghost var values: seq<Option<string>>

    ghost predicate Valid()
      reads this, nodes
    {
      Holds(list, nodes, values) && prevGiven == |nodes|
    }

    constructor ()
      ensures Valid() && values == [] && nodes == []
    {
      list, prevGiven, nodes, values := null, 0, [], [];
    }

    /** add_node followed by update_arg with no_free, override and multiple_option set: the value goes into the node
        as it is, and the counter grows. */
    method AddValue(value: Option<string>)
      requires Valid()
      modifies this
      ensures Valid() && values == old(values) + [value] && fresh(nodes[0]) && nodes[1..] == old(nodes)
    {
      var node := new GenericList(list);
      list := node;
      prevGiven := prevGiven + 1;
      if value.Some? {
        node.stringArg := value;
      }
      if value.Some? {
        node.orig := value;
      }
      HoldsCons(node, value, nodes, values, [node] + nodes, values + [value]);
      nodes := [node] + nodes;
      values := values + [value];
    }

    /** update_multiple_arg_temp for a string option. */
    method UpdateMultipleArgTemp(o: Occurrence)
      requires Valid() && o.before != BACKSLASH
      modifies this
      ensures Valid() && values == old(values) + ValuesOf(o.val)
      ensures forall n | n in nodes :: n in old(nodes) || fresh(n)
    {
      if o.val == None {
        AddValue(None);
        return;
      }
      var arg := o.val.value;
      var multiToken := GetMultipleArgToken(o.before, arg);
      var multiNext := GetMultipleArgTokenNext(o.before, arg);
      ghost var done := [];
      while true
        invariant Valid() && IsToken(multiToken[..], arg) && IsNext(multiNext, arg)
        invariant values == old(values) + done && Remaining(o.val.value, done, arg)
        invariant forall n | n in nodes :: n in old(nodes) || fresh(n)
        decreases |arg|
      {
        SplitStep(o.val.value, done, arg, multiToken[..]);
        done := done + [Some(multiToken[..multiToken.Length - 1])];
        AddValue(Some(multiToken[..multiToken.Length - 1]));
        if multiNext == None { break; }
        var before := arg[multiNext.value - 1];
        arg := arg[multiNext.value..];
        multiToken := GetMultipleArgToken(before, arg);
        multiNext := GetMultipleArgTokenNext(before, arg);
      }
    }
  }

  ghost predicate IsToken(token: seq<char>, arg: string) {
    token == Unescape(arg[..Sep(arg)]) + ['\0']
  }

  ghost predicate IsNext(next: Option<nat>, arg: string) {
    next == if Sep(arg) >= |arg| - 1 then None else Some(Sep(arg) + 1)
  }

  /** Of the values of `whole`, those not yet done are the values of `arg`. */
  ghost predicate Remaining(whole: string, done: seq<Option<string>>, arg: string) {
    Wrap(Split(whole)) == done + Wrap(Split(arg))
  }

  lemma {:induction false} WrapSplit(s: string)
    ensures var p := Sep(s);
            && (p >= |s| - 1 ==> Wrap(Split(s)) == [Some(Unescape(s[..p]))])
            && (p < |s| - 1 ==> s[p] == COMMA && Wrap(Split(s)) == [Some(Unescape(s[..p]))] + Wrap(Split(s[p + 1..])))
  {
    HeadClosed(s);
  }

  lemma {:induction false} SplitStep(whole: string, done: seq<Option<string>>, arg: string, token: seq<char>)
    requires IsToken(token, arg) && Remaining(whole, done, arg)
    ensures var p, done' := Sep(arg), done + [Some(token[..|token| - 1])];
            && (p >= |arg| - 1 ==> Wrap(Split(whole)) == done')
            && (p < |arg| - 1 ==> arg[p] == COMMA && Remaining(whole, done', arg[p + 1..]))
  {
    WrapSplit(arg);
    assert token[..|token| - 1] == Unescape(arg[..Sep(arg)]);
  }

  /** What earlier parses left in an option's array. */
  ghost function Kept(field: array?<Option<string>>, fieldGiven: nat): (r: seq<Option<string>>)
    requires fieldGiven > 0 ==> field != null && fieldGiven <= field.Length
    reads field
    ensures |r| == fieldGiven && forall i | 0 <= i < fieldGiven :: r[i] == field[i]
  {
    if fieldGiven > 0 then field[..fieldGiven] else []
  }

  /** realloc: what was there survives, the rest is arbitrary. */
  method Realloc(field: array?<Option<string>>, fieldGiven: nat, size: nat) returns (a: array<Option<string>>)
    requires fieldGiven <= size && (fieldGiven > 0 ==> field != null && fieldGiven <= field.Length)
    ensures fresh(a) && a.Length == size && a[..fieldGiven] == Kept(field, fieldGiven)
  {
    a := new Option<string>[size];
    for i := 0 to fieldGiven
      invariant i > 0 ==> a[..i] == field[..i]
    {
      a[i] := field[i];
    }
  }

  /** The storing loop of update_multiple_arg: from the last entry to the first, along the list. */
  method Store(f: array<Option<string>>, o: array<Option<string>>, fieldGiven: nat, prevGiven: nat, list: GenericList?,
               ghost nodes: seq<GenericList>, ghost values: seq<Option<string>>)
    returns (rest: GenericList?)
    requires Holds(list, nodes, values) && prevGiven == |nodes| && f != o
    requires f.Length == o.Length == fieldGiven + prevGiven
    modifies f, o
    ensures f[..] == old(f[..fieldGiven]) + values && o[..] == old(o[..fieldGiven]) + values
    ensures rest == null
  {
    rest := list;
    var i: int := prevGiven - 1;
    ghost var prior := (f[..fieldGiven], o[..fieldGiven]);
    while i >= 0
      invariant -1 <= i < prevGiven && Reached(rest, nodes, i)
      invariant Stored(f[..], fieldGiven, i + 1, prior.0, values) && Stored(o[..], fieldGiven, i + 1, prior.1, values)
    {
      rest := StoreNode(f, o, fieldGiven, i, rest, list, nodes, values, prior);
      i := i - 1;
    }
    AllStored(f[..], fieldGiven, prior.0, values);
    AllStored(o[..], fieldGiven, prior.1, values);
  }

  lemma {:induction false} AllStored(f: seq<Option<string>>, n: nat, prior: seq<Option<string>>,
                                     values: seq<Option<string>>)
    requires Stored(f, n, 0, prior, values)
    ensures f == prior + values
  {}

  /** `rest` is the node whose value belongs at index `i`. */
  ghost predicate Reached(rest: GenericList?, nodes: seq<GenericList>, i: int)
    requires -1 <= i < |nodes|
  {
    rest == if i >= 0 then nodes[|nodes| - 1 - i] else null
  }

  /** The entries from `k` on are in place, and so is what was there before. */
  ghost predicate Stored(f: seq<Option<string>>, fieldGiven: nat, k: nat, prior: seq<Option<string>>,
                         values: seq<Option<string>>)
  {
    |f| == fieldGiven + |values| && k <= |values| && f[..fieldGiven] == prior && f[fieldGiven + k..] == values[k..]
  }

  method StoreNode(f: array<Option<string>>, o: array<Option<string>>, fieldGiven: nat, i: nat, rest: GenericList?,
                   ghost list: GenericList?, ghost nodes: seq<GenericList>, ghost values: seq<Option<string>>,
                   ghost prior: (seq<Option<string>>, seq<Option<string>>))
    returns (rest': GenericList?)
    requires Holds(list, nodes, values) && f != o && i < |nodes| && Reached(rest, nodes, i)
    requires Stored(f[..], fieldGiven, i + 1, prior.0, values) && Stored(o[..], fieldGiven, i + 1, prior.1, values)
    modifies f, o
    ensures Reached(rest', nodes, i - 1)
    ensures Stored(f[..], fieldGiven, i, prior.0, values) && Stored(o[..], fieldGiven, i, prior.1, values)
  {
    assert nodes[|nodes| - 1 - i].stringArg == values[i];
    assert nodes[|nodes| - 1 - i].next == if i > 0 then nodes[|nodes| - i] else null;
    rest' := rest.next;
    StoreOne(f, fieldGiven, i, rest.stringArg, prior.0, values);
    StoreOne(o, fieldGiven, i, rest.orig, prior.1, values);
  }

  method StoreOne(f: array<Option<string>>, fieldGiven: nat, i: nat, v: Option<string>,
                  ghost prior: seq<Option<string>>, ghost values: seq<Option<string>>)
    requires i < |values| && v == values[i] && Stored(f[..], fieldGiven, i + 1, prior, values)
    modifies f
    ensures Stored(f[..], fieldGiven, i, prior, values)
  {
    f[i + fieldGiven] := v;
    assert f[fieldGiven + i..] == [v] + f[fieldGiven + i + 1..];
    assert values[i..] == [v] + values[i + 1..];
  }

  /** update_multiple_arg: the collected values go behind those that earlier parses left in `field`. `rest` is what
      the walk along the list ends with. */
  method UpdateMultipleArg(field: array?<Option<string>>, origField: array?<Option<string>>, fieldGiven: nat,
                           prevGiven: nat, defaultValue: Option<string>, list: GenericList?,
                           ghost nodes: seq<GenericList>, ghost values: seq<Option<string>>)
    returns (field': array?<Option<string>>, origField': array?<Option<string>>, rest: GenericList?)
    requires Holds(list, nodes, values) && prevGiven == |nodes|
    requires fieldGiven > 0 ==> field != null && fieldGiven <= field.Length
    requires fieldGiven > 0 ==> origField != null && fieldGiven <= origField.Length
    ensures values != [] ==>
              && field' != null && field'[..] == old(Kept(field, fieldGiven)) + values
              && origField' != null && origField'[..] == old(Kept(origField, fieldGiven)) + values
    ensures values == [] && (defaultValue.None? || fieldGiven > 0) ==> field' == field && origField' == origField
    ensures values == [] && defaultValue.Some? && fieldGiven == 0 ==>
              && (if field == null then field' != null && field'[..] == [defaultValue] else field' == field)
              && (if origField == null then origField' != null && origField'[..] == [None] else origField' == origField)
    ensures rest == null
  {
    field', origField', rest := field, origField, list;
    if prevGiven > 0 && list != null {
      var o := Realloc(origField, fieldGiven, fieldGiven + prevGiven);
      var f := Realloc(field, fieldGiven, fieldGiven + prevGiven);
      rest := Store(f, o, fieldGiven, prevGiven, list, nodes, values);
      field', origField' := f, o;
    } else {
      if defaultValue.Some? && fieldGiven == 0 {
        if field == null {
          field' := new Option<string>[1](_ => defaultValue);
        }
        if origField == null {
          origField' := new Option<string>[1](_ => None);
        }
      }
    }
  }

  /** A whole parse, for one multiple option: any number of occurrences, then the final array and count. */
  method ParseOption(field: array?<Option<string>>, origField: array?<Option<string>>, fieldGiven: nat,
                     occurrences: seq<Occurrence>, defaultValue: Option<string>)
    returns (field': array?<Option<string>>, origField': array?<Option<string>>, fieldGiven': nat)
    requires forall i | 0 <= i < |occurrences| :: occurrences[i].before != BACKSLASH
    requires fieldGiven > 0 ==> field != null && fieldGiven <= field.Length
    requires fieldGiven > 0 ==> origField != null && fieldGiven <= origField.Length
    ensures fieldGiven' == fieldGiven + |AllValues(occurrences)|
    ensures occurrences != [] ==>
              && field' != null && field'[..] == old(Kept(field, fieldGiven)) + AllValues(occurrences)
              && origField' != null && origField'[..] == old(Kept(origField, fieldGiven)) + AllValues(occurrences)
    ensures forall tss | tss != [] && Written(occurrences, tss) ::
              field' != null && InOrder(field'[..], old(Kept(field, fieldGiven)), tss)
    ensures occurrences == [] && (defaultValue.None? || fieldGiven > 0) ==> field' == field && origField' == origField
    ensures occurrences == [] && defaultValue.Some? && fieldGiven == 0 && field == null ==>
              fieldGiven' == 0 && field' != null && field'[..] == [defaultValue]
  {
    var c := new Collector();
    for k := 0 to |occurrences|
      invariant c.Valid() && fresh(c) && c.values == AllValues(occurrences[..k])
      invariant forall n | n in c.nodes :: fresh(n)
    {
      c.UpdateMultipleArgTemp(occurrences[k]);
      ValuesNext(occurrences, k);
    }
    assert occurrences[..|occurrences|] == occurrences;
    if occurrences != [] { SomeValue(occurrences); }
    var rest;
    field', origField', rest :=
      UpdateMultipleArg(field, origField, fieldGiven, c.prevGiven, defaultValue, c.list, c.nodes, c.values);
    fieldGiven' := fieldGiven + c.prevGiven;
    forall tss | tss != [] && Written(occurrences, tss) ensures InOrder(field'[..], old(Kept(field, fieldGiven)), tss) {
      PrintedInOrder(occurrences, tss, old(Kept(field, fieldGiven)), field'[..]);
    }
  }

  lemma {:induction false} SomeValue(occurrences: seq<Occurrence>)
    requires occurrences != []
    ensures AllValues(occurrences) != []
  {
    var n := |occurrences| - 1;
    ValuesNext(occurrences, n);
    assert occurrences[..n + 1] == occurrences;
    var val := occurrences[n].val;
    assert ValuesOf(val) != [] by {
      if val.Some? { assert |Wrap(Split(val.value))| >= 1; }
    }
  }
}

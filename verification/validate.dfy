/** validate_optlist of src/pflask.c, which looks at the value of --mount, --netif and --user-map first. */
module Validate {
  import opened Path
  import opened Util

  /** How a step of option handling ends: main goes on, main refuses the value, or a NULL pointer is followed. */
  datatype Outcome = Goes | Refused | NullRead

  /** Only a value that consists of colons makes a difference: strtok has no token for it. */
  function Validation(opts: string): Outcome {
    if opts != [] && Fields(opts, ":") == [] then NullRead else Goes
  }

  /** A value is followed into a NULL pointer exactly if it is not empty and has nothing but colons. */
  lemma {:induction false} ColonsOnly(opts: string)
    ensures Validation(opts) != Refused
    ensures Validation(opts) == NullRead <==> opts != [] && forall p | 0 <= p < |opts| :: opts[p] == ':'
  {
    FieldsExist(opts, ":");
  }

  /** The check for empty fields never refuses anything, since strtok gives none. */
  method ValidateOptlist(opts: string) returns (r: Outcome)
    requires '\0' !in opts
    ensures r == Validation(opts)
  {
    if opts == [] { return Goes; }
    ghost var all := Spans(opts, ":", 0);
    var tmp := StrDup(opts);
    var vars := SplitStr(tmp, ":", opts);
    assert |Fields(opts, ":")| == |all|;
    if vars[0] == -1 { return NullRead; }
    r := Goes;
    var i := 0;
    while i < |vars|
      invariant i <= |vars| && r == Goes
    {
      assert tmp[vars[i]] == opts[all[i].start];
      if tmp[vars[i]] == '\0' { r := Refused; }
      i := i + 1;
    }
  }
}

/**
 * The assembler's two growing tables, `labels` and `registers`: ordered lists
 * of one-entry maps, searched from the front, so the first binding of a name
 * wins over any later one.
 */
module Bindings {
  import opened Options
  import opened Numerals

  /** One single-entry `map[string]string{name: value}`. */
  datatype Binding = Binding(name: string, value: string)

  predicate Binds(bs: seq<Binding>, name: string) {
    exists i :: 0 <= i < |bs| && bs[i].name == name
  }

  /** The first-match search shared by `checkIfLabel` and
      `findRegisterBinary`: the value of the earliest binding of `name`. */
  function Lookup(bs: seq<Binding>, name: string): (r: Option<string>)
    ensures r.None? <==> !Binds(bs, name)
    ensures r.Some? ==> exists i :: 0 <= i < |bs| && bs[i].name == name && bs[i].value == r.value
                                    && forall j :: 0 <= j < i ==> bs[j].name != name
  {
    if bs == [] then None
    else if bs[0].name == name then Some(bs[0].value)
    else
      var r := Lookup(bs[1..], name);
      assert forall i :: 1 <= i < |bs| ==> bs[i] == bs[1..][i - 1];
      r
  }

  /** `checkIfLabel`: the label's value, or "" when it is not defined. */
  function CheckIfLabel(labels: seq<Binding>, name: string): string {
    Lookup(labels, name).GetOr("")
  }

  /** `findRegisterBinary`: the register's bit pattern, or "0000" when no
      binding for it exists. */
  function FindRegisterBinary(registers: seq<Binding>, name: string): string {
    Lookup(registers, name).GetOr("0000")
  }

  /** Searching a concatenation: the left part is searched first, and the
      right part only when the left has no binding for the name. */
  lemma {:induction false} LookupConcat(a: seq<Binding>, b: seq<Binding>, name: string)
    ensures Lookup(a + b, name) == if Lookup(a, name).Some? then Lookup(a, name) else Lookup(b, name)
  {
    if a == [] {
      assert a + b == b;
    } else {
      assert (a + b)[0] == a[0];
      assert (a + b)[1..] == a[1..] + b;
      LookupConcat(a[1..], b, name);
    }
  }

  /** One step of the first-match search, from position `i` on. */
  lemma LookupSkip(bs: seq<Binding>, name: string, i: nat)
    requires i < |bs|
    ensures Lookup(bs[i..], name) == if bs[i].name == name then Some(bs[i].value) else Lookup(bs[i + 1..], name)
  {
    assert bs[i..][0] == bs[i];
    assert bs[i..][1..] == bs[i + 1..];
  }

  /** Appending a binding never changes the result for a name that was
      already bound, nor for any other name; only a fresh name gains it. */
  lemma LookupAppend(bs: seq<Binding>, b: Binding, name: string)
    ensures Lookup(bs, name).Some? ==> Lookup(bs + [b], name) == Lookup(bs, name)
    ensures b.name != name ==> Lookup(bs + [b], name) == Lookup(bs, name)
    ensures Lookup(bs, name).None? && b.name == name ==> Lookup(bs + [b], name) == Some(b.value)
  {
    LookupConcat(bs, [b], name);
  }

  /** `findRegisterBinary` over register bindings whose values are bit
      strings of width 4 yields a 4-character pattern, since the fallback
      "0000" has that width too. */
  lemma FindRegisterBinaryWidth(registers: seq<Binding>, name: string)
    requires forall i :: 0 <= i < |registers| ==> |registers[i].value| == 4
    ensures |FindRegisterBinary(registers, name)| == 4
  {
  }

  /** Every bound value is a string of '0' and '1'. */
  predicate BitValues(bs: seq<Binding>) {
    forall k :: 0 <= k < |bs| ==> IsBits(bs[k].value)
  }

  /** Over bit-string bindings, `findRegisterBinary` yields a bit string: a
      bound value or the fallback "0000". */
  lemma FindRegisterBinaryBits(registers: seq<Binding>, name: string)
    requires BitValues(registers)
    ensures IsBits(FindRegisterBinary(registers, name))
  {
    var r := Lookup(registers, name);
    if r.Some? {
      var i :| 0 <= i < |registers| && registers[i].name == name && registers[i].value == r.value;
      assert IsBits(registers[i].value);
    } else {
      assert IsBits("0000");
    }
  }
}

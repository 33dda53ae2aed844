/**
 * The parts of Go's `strings` package that the assembler uses, on ASCII text.
 * A Go string is modelled as a sequence of characters; every operation used
 * here only ever compares characters with ASCII ones, so byte and character
 * positions agree.
 */
module GoStrings {
  import opened Seqs

  /** ASCII white space as `strings.Fields` and `strings.TrimSpace` see it:
      space, tab, newline, vertical tab, form feed and carriage return. */
  predicate IsSpace(c: char) {
    c == ' ' || '\t' <= c <= '\r'
  }

  /** The separator the SWP encoder hands to `strings.FieldsFunc`. */
  predicate IsSpaceOrComma(c: char) {
    c == ' ' || c == ','
  }

  predicate StartsWith(s: string, prefix: string) {
    |prefix| <= |s| && s[..|prefix|] == prefix
  }

  predicate EndsWith(s: string, suffix: string) {
    |suffix| <= |s| && s[|s| - |suffix|..] == suffix
  }

  // ---------------------------------------------------------------------------
  // strings.Contains

  /** `strings.Contains(s, sub)`, as a scan from the front; what it decides
      is stated by `ContainsOccurrence`. */
  function Contains(s: string, sub: string): bool
    decreases |s|
  {
    if StartsWith(s, sub) then true
    else if s == [] then false
    else Contains(s[1..], sub)
  }

  /** `Contains(s, sub)` holds exactly when `sub` occurs in `s` at some position. */
  lemma {:induction false} ContainsOccurrence(s: string, sub: string)
    ensures Contains(s, sub) <==> exists i :: 0 <= i <= |s| && StartsWith(s[i..], sub)
    decreases |s|
  {
    if StartsWith(s, sub) {
      assert s[0..] == s;
    } else if s != [] {
      ContainsOccurrence(s[1..], sub);
      assert forall i :: 1 <= i <= |s| ==> s[i..] == s[1..][i - 1..];
      assert s[0..] == s;
    }
  }

  /** True when some key of the table occurs in `s`. This is how the Go code's
      `for key := range table { if strings.Contains(line, key) { ...; break } }`
      behaves: the outcome does not depend on the order the keys are visited in. */
  function ContainsAny(s: string, keys: seq<string>): (r: bool)
    ensures r <==> exists k :: k in keys && Contains(s, k)
  {
    if keys == [] then false
    else if Contains(s, keys[0]) then
      assert keys[0] in keys;
      true
    else
      var r := ContainsAny(s, keys[1..]);
      assert forall k :: k in keys ==> k == keys[0] || k in keys[1..];
      assert forall k :: k in keys[1..] ==> k in keys;
      r
  }

  /** `strings.Index(s, string(c))`: the first position of `c`, or -1. */
  function IndexOf(s: string, c: char): (i: int)
    ensures -1 <= i < |s|
    ensures i == -1 <==> c !in s
    ensures 0 <= i ==> s[i] == c && c !in s[..i]
  {
    if s == [] then -1
    else if s[0] == c then 0
    else
      var j := IndexOf(s[1..], c);
      assert s == [s[0]] + s[1..];
      if j == -1 then -1
      else
        assert s[..j + 1] == [s[0]] + s[1..][..j];
        j + 1
  }

  // ---------------------------------------------------------------------------
  // strings.TrimSpace, TrimPrefix, TrimSuffix and ToLower

  function TrimLeftSpace(s: string): (r: string)
    ensures |r| <= |s| && r == s[|s| - |r|..]
    ensures forall k :: 0 <= k < |s| - |r| ==> IsSpace(s[k])
    ensures r == [] || !IsSpace(r[0])
  {
    if s != [] && IsSpace(s[0]) then TrimLeftSpace(s[1..]) else s
  }

  function TrimRightSpace(s: string): (r: string)
    ensures |r| <= |s| && r == s[..|r|]
    ensures forall k :: |r| <= k < |s| ==> IsSpace(s[k])
    ensures r == [] || !IsSpace(r[|r| - 1])
  {
    if s != [] && IsSpace(s[|s| - 1]) then TrimRightSpace(s[..|s| - 1]) else s
  }

  /** A slice of `s` starting at `i` with white space only around it. */
  predicate TrimmedAt(s: string, r: string, i: nat) {
    i + |r| <= |s| && r == s[i..i + |r|]
    && (forall k :: 0 <= k < i ==> IsSpace(s[k]))
    && (forall k :: i + |r| <= k < |s| ==> IsSpace(s[k]))
  }

  /** `strings.TrimSpace`: `s` with its leading and trailing white space
      removed and nothing else changed. */
  function TrimSpace(s: string): (r: string)
    ensures |r| <= |s|
    ensures exists i :: TrimmedAt(s, r, i)
    ensures r == [] || (!IsSpace(r[0]) && !IsSpace(r[|r| - 1]))
    ensures r == [] <==> forall k :: 0 <= k < |s| ==> IsSpace(s[k])
  {
    var left := TrimLeftSpace(s);
    var r := TrimRightSpace(left);
    var i := |s| - |left|;
    assert r == s[i..i + |r|];
    assert forall k :: i + |r| <= k < |s| ==> s[k] == left[k - i];
    assert TrimmedAt(s, r, i);
    r
  }

  /** `strings.TrimPrefix`. */
  function TrimPrefix(s: string, prefix: string): (r: string)
    ensures StartsWith(s, prefix) ==> prefix + r == s
    ensures !StartsWith(s, prefix) ==> r == s
  {
    if StartsWith(s, prefix) then s[|prefix|..] else s
  }

  /** `strings.TrimSuffix`. */
  function TrimSuffix(s: string, suffix: string): (r: string)
    ensures EndsWith(s, suffix) ==> r + suffix == s
    ensures !EndsWith(s, suffix) ==> r == s
  {
    if EndsWith(s, suffix) then s[..|s| - |suffix|] else s
  }

  function LowerChar(c: char): char {
    if 'A' <= c <= 'Z' then (c as int + 32) as char else c
  }

  /** `strings.ToLower` on ASCII letters. */
  function ToLower(s: string): (r: string)
    ensures |r| == |s|
    ensures forall k :: 0 <= k < |s| ==> r[k] == LowerChar(s[k])
  {
    if s == [] then [] else [LowerChar(s[0])] + ToLower(s[1..])
  }

  // ---------------------------------------------------------------------------
  // strings.FieldsFunc and strings.Fields

  /** Length of the run of non-separator characters at the start of `s`. */
  function WordLength(s: string, sep: char -> bool): (n: nat)
    ensures n <= |s|
    ensures forall k :: 0 <= k < n ==> !sep(s[k])
    ensures n < |s| ==> sep(s[n])
  {
    if s == [] || sep(s[0]) then 0 else 1 + WordLength(s[1..], sep)
  }

  predicate NoSeparator(w: string, sep: char -> bool) {
    forall k :: 0 <= k < |w| ==> !sep(w[k])
  }

  /** `strings.FieldsFunc(s, sep)`: the maximal non-empty runs of characters
      that are not separators, in the order they occur. */
  function FieldsFunc(s: string, sep: char -> bool): seq<string>
    decreases |s|
  {
    if s == [] then []
    else if sep(s[0]) then FieldsFunc(s[1..], sep)
    else
      var n := WordLength(s, sep);
      [s[..n]] + FieldsFunc(s[n..], sep)
  }

  /** Every field is non-empty and free of separators. */
  lemma {:induction false} FieldsFuncWords(s: string, sep: char -> bool)
    ensures forall i :: 0 <= i < |FieldsFunc(s, sep)| ==>
              FieldsFunc(s, sep)[i] != [] && NoSeparator(FieldsFunc(s, sep)[i], sep)
    decreases |s|
  {
    if s != [] {
      if sep(s[0]) {
        FieldsFuncWords(s[1..], sep);
      } else {
        var n := WordLength(s, sep);
        FieldsFuncWords(s[n..], sep);
        var rest := FieldsFunc(s[n..], sep);
        assert forall k :: 0 <= k < n ==> s[..n][k] == s[k];
        assert forall i :: 1 <= i < 1 + |rest| ==> ([s[..n]] + rest)[i] == rest[i - 1];
      }
    }
  }

  /** `strings.Fields`: the white-space separated words of `s`. */
  function Fields(s: string): seq<string> {
    FieldsFunc(s, IsSpace)
  }

  /** A separator splits the text in two: the fields of the whole are the
      fields of the left part followed by those of the right part. */
  lemma {:induction false} FieldsFuncSplit(a: string, c: char, b: string, sep: char -> bool)
    requires sep(c)
    ensures FieldsFunc(a + [c] + b, sep) == FieldsFunc(a, sep) + FieldsFunc(b, sep)
    decreases |a|
  {
    var s := a + [c] + b;
    if a == [] {
      assert s[1..] == b;
    } else if sep(a[0]) {
      assert s[1..] == a[1..] + [c] + b;
      FieldsFuncSplit(a[1..], c, b, sep);
    } else {
      var n := WordLength(a, sep);
      WordLengthOfSplit(a, c, b, sep);
      assert s[..n] == a[..n];
      assert s[n..] == a[n..] + [c] + b;
      FieldsFuncSplit(a[n..], c, b, sep);
      ConcatAssoc([a[..n]], FieldsFunc(a[n..], sep), FieldsFunc(b, sep));
    }
  }

  lemma {:induction false} WordLengthOfSplit(a: string, c: char, b: string, sep: char -> bool)
    requires sep(c)
    ensures WordLength(a + [c] + b, sep) == WordLength(a, sep)
    decreases |a|
  {
    var s := a + [c] + b;
    if a != [] && !sep(a[0]) {
      assert s[1..] == a[1..] + [c] + b;
      WordLengthOfSplit(a[1..], c, b, sep);
    }
  }

  /** Text made of separators only has no fields. */
  lemma {:induction false} FieldsFuncOfSeparators(s: string, sep: char -> bool)
    requires forall k :: 0 <= k < |s| ==> sep(s[k])
    ensures FieldsFunc(s, sep) == []
    decreases |s|
  {
    if s != [] {
      FieldsFuncOfSeparators(s[1..], sep);
    }
  }

  /** A single word without separators is its own only field. */
  lemma FieldsFuncOfWord(w: string, sep: char -> bool)
    requires w != [] && NoSeparator(w, sep)
    ensures FieldsFunc(w, sep) == [w]
  {
    assert !sep(w[0]);
    var n := WordLength(w, sep);
    assert n == |w|;
    assert w[..n] == w && w[n..] == [];
  }

  /** Leading separators do not change the fields. */
  lemma {:induction false} FieldsFuncSkipsLeading(pre: string, s: string, sep: char -> bool)
    requires forall k :: 0 <= k < |pre| ==> sep(pre[k])
    ensures FieldsFunc(pre + s, sep) == FieldsFunc(s, sep)
    decreases |pre|
  {
    if pre != [] {
      assert (pre + s)[0] == pre[0] && sep(pre[0]);
      assert (pre + s)[1..] == pre[1..] + s;
      FieldsFuncSkipsLeading(pre[1..], s, sep);
    } else {
      assert pre + s == s;
    }
  }

  /** Trailing separators do not change the fields. */
  lemma FieldsFuncSkipsTrailing(s: string, post: string, sep: char -> bool)
    requires forall k :: 0 <= k < |post| ==> sep(post[k])
    ensures FieldsFunc(s + post, sep) == FieldsFunc(s, sep)
  {
    if post != [] {
      assert post == [post[0]] + post[1..];
      assert s + post == s + [post[0]] + post[1..];
      FieldsFuncSplit(s, post[0], post[1..], sep);
      FieldsFuncOfSeparators(post[1..], sep);
      assert FieldsFunc(s, sep) + [] == FieldsFunc(s, sep);
    } else {
      assert s + post == s;
    }
  }

  /** The encoders trim a line before splitting it on white space; the
      trimming never changes which words they see. */
  lemma FieldsOfTrimSpace(s: string)
    ensures Fields(TrimSpace(s)) == Fields(s)
  {
    FieldsOfTrimLeft(s);
    FieldsOfTrimRight(TrimLeftSpace(s));
  }

  lemma FieldsOfTrimLeft(s: string)
    ensures Fields(TrimLeftSpace(s)) == Fields(s)
  {
    var left := TrimLeftSpace(s);
    var pre := s[..|s| - |left|];
    assert s == pre + left;
    FieldsFuncSkipsLeading(pre, left, IsSpace);
  }

  lemma FieldsOfTrimRight(s: string)
    ensures Fields(TrimRightSpace(s)) == Fields(s)
  {
    var r := TrimRightSpace(s);
    var post := s[|r|..];
    assert s == r + post;
    assert forall k :: 0 <= k < |post| ==> post[k] == s[|r| + k];
    FieldsFuncSkipsTrailing(r, post, IsSpace);
  }
}

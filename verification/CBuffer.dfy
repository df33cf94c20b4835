/** C strings in buffers, written through a moving index. */
module CBuffer {

  /** `a` holds the C string `s`. */
  ghost predicate Holds(a: array<char>, s: string)
    reads a
  {
    |s| < a.Length && a[..|s|] == s && a[|s|] == '\0'
  }

  /** `*ptr++ = c`. */
  method Put(out: array<char>, ptr: nat, c: char) returns (next: nat)
    requires ptr < out.Length
    modifies out
    ensures next == ptr + 1 && out[..next] == old(out[..ptr]) + [c]
  {
    out[ptr] := c;
    next := ptr + 1;
    assert out[..ptr] == old(out[..ptr]);
  }

  /** `strcpy(ptr, s); ptr += strlen(s)`. */
  method Copy(out: array<char>, ptr: nat, s: string) returns (next: nat)
    requires ptr + |s| < out.Length
    modifies out
    ensures next == ptr + |s| && out[..next] == old(out[..ptr]) + s && out[next] == '\0'
  {
    next := ptr;
    while next < ptr + |s|
      invariant ptr <= next <= ptr + |s| && out[..next] == old(out[..ptr]) + s[..next - ptr]
    {
      var i := next - ptr;
      next := Put(out, next, s[i]);
      assert s[..i + 1] == s[..i] + [s[i]];
    }
    assert s[..next - ptr] == s;
    End(out, next);
  }

  /** `*ptr = 0`. */
  method End(out: array<char>, ptr: nat)
    requires ptr < out.Length
    modifies out
    ensures out[..ptr] == old(out[..ptr]) && out[ptr] == '\0'
  {
    out[ptr] := '\0';
  }

  ghost predicate NoNul(s: string) {
    forall i :: 0 <= i < |s| ==> s[i] != '\0'
  }

  /** strlen. */
  method StrLen(a: array<char>, ghost s: string) returns (n: nat)
    requires Holds(a, s) && NoNul(s)
    ensures n == |s|
  {
    HeldClean(a, s);
    n := 0;
    while a[n] != '\0'
      invariant n <= |s|
      decreases |s| - n
    {
      n := n + 1;
    }
  }

  lemma HeldClean(a: array<char>, s: string)
    requires Holds(a, s) && NoNul(s)
    ensures forall i :: 0 <= i < |s| ==> a[i] != '\0'
  {
    assert forall i :: 0 <= i < |s| ==> a[i] == a[..|s|][i];
  }

  /** `*--ptr = c`. */
  method PutBefore(out: array<char>, ptr: nat, c: char, ghost end: nat) returns (at: nat)
    requires 0 < ptr <= end <= out.Length
    modifies out
    ensures at == ptr - 1 && out[at..end] == [c] + old(out[ptr..end])
    ensures forall k :: 0 <= k <= at ==> out[..k] == old(out[..k])
  {
    at := ptr - 1;
    out[at] := c;
    assert out[ptr..end] == old(out[ptr..end]);
  }
}

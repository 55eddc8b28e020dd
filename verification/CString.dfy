/** NUL-terminated strings in fixed buffers: what strscpy stores, what bounded strncmp sees. */
module CString {
  import opened Kernel

  const NUL := '\0'

  /** A buffer that a C string can safely be read from. */
  type CBuf = b: seq<char> | NUL in b witness [NUL]

  /** The contents of a C string. */
  type Text = t: string | NUL !in t witness ""

  /** The C string a buffer holds. */
  function Str(b: CBuf): (t: Text)
    ensures |t| < |b| && b[..|t|] == t && b[|t|] == NUL
  {
    if b[0] == NUL then "" else [b[0]] + Str(b[1..])
  }

  /** A text without a NUL, followed by one, is what the buffer reads as. */
  lemma StrAt(b: seq<char>, t: string)
    requires |t| < |b| && b[..|t|] == t && b[|t|] == NUL && NUL !in t
    ensures NUL in b && Str(b) == t
  {
    assert b[|t|] in b;
    assert b[..|Str(b)|] == Str(b);
  }

  function Terminate(t: Text): (b: CBuf)
    ensures Str(b) == t
  {
    t + [NUL]
  }

  /** The part of a text that a field of `size` bytes can hold. */
  function Clip(t: Text, size: nat): (r: Text)
    requires size > 0
    ensures r <= t && |r| == Min(|t|, size - 1)
  {
    t[..Min(|t|, size - 1)]
  }

  /** A field of `size` bytes after memset to zero and strscpy of `t`. */
  function Strscpy(t: Text, size: nat): (b: CBuf)
    requires size > 0
    ensures |b| == size && Str(b) == Clip(t, size)
  {
    var kept := Clip(t, size);
    var b := kept + seq(size - |kept|, _ => NUL);
    assert b[|kept|] == NUL && b[..|kept|] == kept;
    b
  }

  /** No NUL lies before position `i`. */
  predicate Unread(a: CBuf, i: nat) {
    forall k :: 0 <= k < i && k < |a| ==> a[k] != NUL
  }

  /** strncmp(a, b, n) == 0, comparing from byte `i` on.  Neither buffer is read past its NUL. */
  predicate StrnEqFrom(a: CBuf, b: CBuf, n: nat, i: nat)
    requires i <= n && Unread(a, i) && Unread(b, i)
    decreases n - i
  {
    i == n || (a[i] == b[i] && (a[i] == NUL || StrnEqFrom(a, b, n, i + 1)))
  }

  predicate StrnEq(a: CBuf, b: CBuf, n: nat) {
    StrnEqFrom(a, b, n, 0)
  }

  lemma Unroll(a: CBuf, n: nat, i: nat)
    requires i < n && Unread(a, i)
    ensures i < |a| && i <= |Str(a)|
    ensures a[i] == NUL ==> Prefix(Str(a), n)[i..] == []
    ensures a[i] != NUL ==> |Prefix(Str(a), n)| > i && Prefix(Str(a), n)[i..] == [a[i]] + Prefix(Str(a), n)[i + 1..]
  {
  }

  lemma {:induction false} StrnEqFromExact(a: CBuf, b: CBuf, n: nat, i: nat)
    requires i <= n && Unread(a, i) && Unread(b, i)
    ensures i <= |Str(a)| && i <= |Str(b)|
    ensures StrnEqFrom(a, b, n, i) <==> Prefix(Str(a), n)[i..] == Prefix(Str(b), n)[i..]
    decreases n - i
  {
    if i < n {
      Unroll(a, n, i);
      Unroll(b, n, i);
      if a[i] == b[i] && a[i] != NUL {
        StrnEqFromExact(a, b, n, i + 1);
      }
    }
  }

  function Prefix(t: string, n: nat): string {
    t[..Min(|t|, n)]
  }

  /** Bounded comparison is equality of the first n characters. */
  lemma StrnEqExact(a: CBuf, b: CBuf, n: nat)
    ensures StrnEq(a, b, n) <==> Prefix(Str(a), n) == Prefix(Str(b), n)
  {
    StrnEqFromExact(a, b, n, 0);
    assert Prefix(Str(a), n)[0..] == Prefix(Str(a), n) && Prefix(Str(b), n)[0..] == Prefix(Str(b), n);
  }

  /** Comparing a whole field with a query of any length is comparing the two strings. */
  lemma FieldMatches(field: CBuf, query: CBuf)
    ensures StrnEq(field, query, |field|) <==> Str(field) == Str(query)
  {
    StrnEqExact(field, query, |field|);
    var kept, q := Str(field), Str(query);
    assert Prefix(kept, |field|) == kept;
    if Prefix(q, |field|) == kept {
      assert |q| < |field| && Prefix(q, |field|) == q;
    }
  }

  /** A field written by strscpy matches the written text, and then nothing else, exactly when
      the text is within the field's limit. */
  lemma FieldFaithful(t: Text, size: nat)
    requires size > 0
    ensures (forall query: Text :: StrnEq(Strscpy(t, size), Terminate(query), size) <==> query == t) <==> |t| < size
  {
    forall query: Text
      ensures StrnEq(Strscpy(t, size), Terminate(query), size) <==> query == Clip(t, size)
    {
      FieldMatches(Strscpy(t, size), Terminate(query));
    }
    if |t| < size {
      assert Clip(t, size) == t;
    } else {
      assert !StrnEq(Strscpy(t, size), Terminate(t), size);
    }
  }
}

/** The streaming file hash and its hexadecimal listing (aegis_file.c).  SHA-256 itself, section
    6.2 of FIPS 180-4, stays abstract: a digest is a final function of a fold over the bytes. */
module FileHash {
  import opened Kernel
  import opened CString
  import opened Decimal

  type Byte = b: int | 0 <= b < 256
  type Digest = h: seq<Byte> | |h| == HASH_SIZE witness seq(HASH_SIZE, _ => 0)

  /** Stands for whatever the field holds while no digest is valid; it is never shown. */
  function Unset(): Digest {
    seq(HASH_SIZE, _ => 0)
  }

  const PAGE_SIZE: nat := 4096

  // ----- absorbing a file in pieces ------------------------------------------

  function Absorb<S>(st: S, step: (S, Byte) -> S, bytes: seq<Byte>): S {
    if bytes == [] then st else Absorb(step(st, bytes[0]), step, bytes[1..])
  }

  /** Absorbing piece by piece is absorbing the whole. */
  lemma {:induction false} AbsorbConcat<S>(st: S, step: (S, Byte) -> S, a: seq<Byte>, b: seq<Byte>)
    ensures Absorb(st, step, a + b) == Absorb(Absorb(st, step, a), step, b)
    decreases |a|
  {
    if a == [] {
      assert a + b == b;
    } else {
      assert (a + b)[1..] == a[1..] + b;
      AbsorbConcat(step(st, a[0]), step, a[1..], b);
    }
  }

  datatype Resource = Tfm | Desc | Buf

  datatype Event = Acquired(r: Resource) | Released(r: Resource)

  /** Acquire in order, release in reverse order. */
  function Nested(rs: seq<Resource>): seq<Event> {
    if rs == [] then [] else [Acquired(rs[0])] + Nested(rs[1..]) + [Released(rs[0])]
  }

  /** Some distinct resources are acquired, and each is released exactly once, innermost first. */
  ghost predicate Clean(trace: seq<Event>) {
    exists rs: seq<Resource> :: Distinct(rs) && trace == Nested(rs)
  }

  /** In a clean trace every resource is released exactly as often as it is acquired: at most once. */
  lemma CleanReleasesOnce(trace: seq<Event>, r: Resource)
    requires Clean(trace)
    ensures multiset(trace)[Acquired(r)] == multiset(trace)[Released(r)] <= 1
  {
    var rs :| Distinct(rs) && trace == Nested(rs);
    NestedCounts(rs, r);
  }

  lemma {:induction false} NestedCounts(rs: seq<Resource>, r: Resource)
    requires Distinct(rs)
    ensures multiset(Nested(rs))[Acquired(r)] == multiset(Nested(rs))[Released(r)] == if r in rs then 1 else 0
  {
    if rs != [] {
      NestedCounts(rs[1..], r);
      assert rs == [rs[0]] + rs[1..];
      assert multiset(Nested(rs)) ==
             multiset([Acquired(rs[0])]) + multiset(Nested(rs[1..])) + multiset([Released(rs[0])]);
    }
  }

  /** What the kernel services answer during one computation: error codes, whether memory is
      granted, and for the i-th read its error or its preferred size. */
  datatype Services = Services(
    tfm: int, desc: bool, init: int, buf: bool, read: nat -> int, update: nat -> int, final: int)

  /** No service fails. */
  ghost predicate Working(sv: Services) {
    && sv.tfm == 0 && sv.desc && sv.init == 0 && sv.buf && sv.final == 0
    && forall i :: sv.read(i) > 0 && sv.update(i) == 0
  }

  /** kernel_read with `left` bytes to go: an error, 0 at the end, or between 1 and a page of what is left. */
  function ReadSize(answer: int, left: nat): (n: int)
    ensures answer < 0 ==> n == answer
    ensures answer >= 0 ==> 0 <= n <= left && (n == 0 <==> left == 0) && n <= PAGE_SIZE
  {
    if answer < 0 then answer
    else if left == 0 then 0
    else Min(if answer == 0 then 1 else answer, Min(PAGE_SIZE, left))
  }

  /** The error of the first read or update to fail from the i-th on, with `left` bytes to go. */
  function StreamFailure(left: nat, sv: Services, i: nat): int {
    var n := ReadSize(sv.read(i), left);
    if n <= 0 then n
    else if sv.update(i) != 0 then sv.update(i)
    else StreamFailure(left - n, sv, i + 1)
  }

  /** How much is left to read after `n` rounds of reading and updating. */
  function Left(size: nat, sv: Services, n: nat): nat {
    if n == 0 then size
    else
      var left := Left(size, sv, n - 1);
      if sv.read(n - 1) < 0 then left else left - ReadSize(sv.read(n - 1), left)
  }

  /** The first `n` rounds each read something and updated the hash with it. */
  predicate Rounds(size: nat, sv: Services, n: nat) {
    n == 0 || (Rounds(size, sv, n - 1) && Left(size, sv, n - 1) > 0 && sv.read(n - 1) >= 0 && sv.update(n - 1) == 0)
  }

  /** After `n` rounds the whole file has been read and hashed, and the last read says so. */
  predicate Streamed(size: nat, sv: Services, n: nat) {
    Rounds(size, sv, n) && Left(size, sv, n) == 0 && sv.read(n) >= 0
  }

  lemma StreamStep(left: nat, sv: Services, i: nat)
    requires left > 0 && sv.read(i) >= 0 && sv.update(i) == 0
    ensures StreamFailure(left, sv, i) == StreamFailure(left - ReadSize(sv.read(i), left), sv, i + 1)
  {
  }

  lemma {:induction false} RoundsPass(size: nat, sv: Services, n: nat)
    requires Rounds(size, sv, n)
    ensures StreamFailure(size, sv, 0) == StreamFailure(Left(size, sv, n), sv, n)
  {
    if n > 0 {
      RoundsPass(size, sv, n - 1);
      StreamStep(Left(size, sv, n - 1), sv, n - 1);
    }
  }

  /** After `n` good rounds whichever of the n-th read and update fails first is the error of the
      stream, and a stream that has run out has none. */
  lemma StreamExact(size: nat, sv: Services, n: nat)
    requires Rounds(size, sv, n)
    ensures sv.read(n) < 0 ==> StreamFailure(size, sv, 0) == sv.read(n)
    ensures sv.read(n) >= 0 && Left(size, sv, n) > 0 && sv.update(n) != 0 ==> StreamFailure(size, sv, 0) == sv.update(n)
    ensures Streamed(size, sv, n) ==> StreamFailure(size, sv, 0) == 0
  {
    RoundsPass(size, sv, n);
  }

  /** The error of the first service to fail while hashing `size` bytes; 0 when none does. */
  function FirstFailure(size: nat, sv: Services): int {
    if sv.tfm != 0 then sv.tfm
    else if !sv.desc then -ENOMEM
    else if sv.init != 0 then sv.init
    else if !sv.buf then -ENOMEM
    else if StreamFailure(size, sv, 0) != 0 then StreamFailure(size, sv, 0)
    else sv.final
  }

  /** The resources a computation gets hold of before it stops. */
  function Taken(called: bool, sv: Services): seq<Resource> {
    if !called || sv.tfm != 0 then []
    else if !sv.desc then [Tfm]
    else if sv.init != 0 || !sv.buf then [Tfm, Desc]
    else [Tfm, Desc, Buf]
  }

  method ComputeFileHash<S, D>(file: Option<seq<Byte>>, hashOut: bool, start: S, step: (S, Byte) -> S,
                               finish: S -> D, sv: Services)
      returns (ret: int, digest: Option<D>, trace: seq<Event>)
    ensures trace == Nested(Taken(file.Some? && hashOut, sv)) && Clean(trace)
    ensures ret == if file.None? || !hashOut then -EINVAL else FirstFailure(|file.value|, sv)
    ensures digest == if ret == 0 && file.Some? then Some(finish(Absorb(start, step, file.value))) else None
    ensures file.Some? && hashOut && Working(sv) ==> ret == 0
    ensures file.None? || !hashOut ==> ret == -EINVAL && trace == []
    ensures ret == 0 ==> file.Some? && hashOut && sv.tfm == 0 && sv.desc && sv.init == 0 && sv.buf && sv.final == 0
                         && exists n :: Streamed(|file.value|, sv, n)
    ensures file.Some? && hashOut ==>
              && (sv.tfm != 0 ==> ret == sv.tfm)
              && (sv.tfm == 0 && !sv.desc ==> ret == -ENOMEM)
              && (sv.tfm == 0 && sv.desc && sv.init != 0 ==> ret == sv.init)
              && (sv.tfm == 0 && sv.desc && sv.init == 0 && !sv.buf ==> ret == -ENOMEM)
    ensures file.Some? && hashOut && sv.tfm == 0 && sv.desc && sv.init == 0 && sv.buf ==>
              forall n :: Rounds(|file.value|, sv, n) ==>
                && (sv.read(n) < 0 ==> ret == sv.read(n))
                && (sv.read(n) >= 0 && Left(|file.value|, sv, n) > 0 && sv.update(n) != 0 ==> ret == sv.update(n))
                && (sv.read(n) >= 0 && Left(|file.value|, sv, n) == 0 ==> ret == sv.final)
    ensures ret != 0 ==> digest.None?
    ensures var called := file.Some? && hashOut && sv.tfm == 0;
            && (Acquired(Tfm) in trace <==> called)
            && (Acquired(Desc) in trace <==> called && sv.desc)
            && (Acquired(Buf) in trace <==> called && sv.desc && sv.init == 0 && sv.buf)
  {
    LadderTraces();
    digest, trace := None, [];
    if file.None? || !hashOut {
      return -EINVAL, digest, trace;
    }
    if sv.tfm != 0 {
      return sv.tfm, digest, trace;
    }
    trace := [Acquired(Tfm)];
    if !sv.desc {
      ret := -ENOMEM;
    } else {
      trace := trace + [Acquired(Desc)];
      ret := sv.init;
      if ret == 0 {
        if !sv.buf {
          ret := -ENOMEM;
        } else {
          trace := trace + [Acquired(Buf)];
          ret, digest := HashContents(file.value, start, step, finish, sv);
          trace := trace + [Released(Buf)];
        }
      }
      trace := trace + [Released(Desc)];
    }
    trace := trace + [Released(Tfm)];
  }

  /** Stream the file and finish the digest: the answer is that of the first read or update to
      fail, or of the final step. */
  method HashContents<S, D>(contents: seq<Byte>, start: S, step: (S, Byte) -> S, finish: S -> D, sv: Services)
      returns (ret: int, digest: Option<D>)
    ensures ret == if StreamFailure(|contents|, sv, 0) != 0 then StreamFailure(|contents|, sv, 0) else sv.final
    ensures digest == if ret == 0 then Some(finish(Absorb(start, step, contents))) else None
    ensures ret == 0 ==> sv.final == 0 && exists n :: Streamed(|contents|, sv, n)
    ensures forall n :: Rounds(|contents|, sv, n) ==>
              && (sv.read(n) < 0 ==> ret == sv.read(n))
              && (sv.read(n) >= 0 && Left(|contents|, sv, n) > 0 && sv.update(n) != 0 ==> ret == sv.update(n))
              && (sv.read(n) >= 0 && Left(|contents|, sv, n) == 0 ==> ret == sv.final)
    ensures Working(sv) ==> ret == 0
  {
    forall n | Rounds(|contents|, sv, n)
      ensures sv.read(n) < 0 ==> StreamFailure(|contents|, sv, 0) == sv.read(n)
      ensures sv.read(n) >= 0 && Left(|contents|, sv, n) > 0 && sv.update(n) != 0 ==> StreamFailure(|contents|, sv, 0) == sv.update(n)
      ensures sv.read(n) >= 0 && Left(|contents|, sv, n) == 0 ==> StreamFailure(|contents|, sv, 0) == 0
    {
      StreamExact(|contents|, sv, n);
    }
    digest := None;
    var st;
    ret, st := AbsorbFile(contents, start, step, sv);
    if ret == 0 {
      ret := sv.final;
      if ret == 0 {
        digest := Some(finish(st));
      }
    }
  }

  /** The read and update loop: on success it has absorbed the whole file, in order. */
  method AbsorbFile<S>(contents: seq<Byte>, start: S, step: (S, Byte) -> S, sv: Services) returns (ret: int, st: S)
    ensures ret == 0 ==> st == Absorb(start, step, contents)
    ensures ret == StreamFailure(|contents|, sv, 0)
    ensures ret == 0 ==> exists n :: Streamed(|contents|, sv, n)
    ensures Working(sv) ==> ret == 0
  {
    st := start;
    var pos, i: nat := 0, 0;
    var n := ReadSize(sv.read(0), |contents|);
    while n > 0
      invariant 0 <= pos <= |contents| && n == ReadSize(sv.read(i), |contents| - pos)
      invariant st == Absorb(start, step, contents[..pos])
      invariant Rounds(|contents|, sv, i) && Left(|contents|, sv, i) == |contents| - pos
      invariant StreamFailure(|contents|, sv, 0) == StreamFailure(|contents| - pos, sv, i)
      decreases |contents| - pos
    {
      ret := sv.update(i);
      if ret != 0 {
        return;
      }
      var chunk := contents[pos..pos + n];
      AbsorbConcat(start, step, contents[..pos], chunk);
      assert contents[..pos + n] == contents[..pos] + chunk;
      st := Absorb(st, step, chunk);
      pos := pos + n;
      i := i + 1;
      n := ReadSize(sv.read(i), |contents| - pos);
    }
    ret := n;
    assert n == 0 ==> contents[..pos] == contents && Streamed(|contents|, sv, i);
  }

  /** The four ways through the cleanup ladder. */
  lemma LadderTraces()
    ensures Nested([]) == [] && Distinct<Resource>([])
    ensures Nested([Tfm]) == [Acquired(Tfm), Released(Tfm)] && Distinct([Tfm])
    ensures Nested([Tfm, Desc]) == [Acquired(Tfm), Acquired(Desc), Released(Desc), Released(Tfm)] && Distinct([Tfm, Desc])
    ensures Nested([Tfm, Desc, Buf]) ==
            [Acquired(Tfm), Acquired(Desc), Acquired(Buf), Released(Buf), Released(Desc), Released(Tfm)]
    ensures Distinct([Tfm, Desc, Buf])
  {
  }

  // ----- listing the digest --------------------------------------------------

  predicate IsHexDigit(c: char) {
    IsDigit(c) || 'a' <= c <= 'f'
  }

  function HexChar(d: nat): (c: char)
    requires d < 16
    ensures IsHexDigit(c)
  {
    if d < 10 then DigitChar(d) else ('a' as int + d - 10) as char
  }

  function HexValue(c: char): (d: nat)
    requires IsHexDigit(c)
    ensures d < 16
  {
    if IsDigit(c) then DigitValue(c) else c as int - 'a' as int + 10
  }

  function Hex(h: seq<Byte>): (s: string)
    ensures |s| == 2 * |h|
  {
    if h == [] then "" else Hex(h[..|h| - 1]) + [HexChar(h[|h| - 1] / 16), HexChar(h[|h| - 1] % 16)]
  }

  predicate HexString(s: string) {
    |s| % 2 == 0 && forall i :: 0 <= i < |s| ==> IsHexDigit(s[i])
  }

  function Unhex(s: string): seq<Byte>
    requires HexString(s)
  {
    if s == "" then [] else Unhex(s[..|s| - 2]) + [16 * HexValue(s[|s| - 2]) + HexValue(s[|s| - 1])]
  }

  /** The listing decodes back to the digest, so different digests are listed differently. */
  lemma {:induction false} HexDecodes(h: seq<Byte>)
    ensures HexString(Hex(h)) && Unhex(Hex(h)) == h
  {
    if h != [] {
      var init, b := h[..|h| - 1], h[|h| - 1];
      var text, x, y := Hex(init), HexChar(b / 16), HexChar(b % 16);
      assert h == init + [b];
      HexDecodes(init);
    }
  }

  const HEX_DIGITS: string := "0123456789abcdef"

  /** Every byte is written as its two digits, the high one first. */
  lemma {:induction false} HexDigitsAt(h: seq<Byte>, i: nat)
    requires i < |h|
    ensures Hex(h)[2 * i] == HEX_DIGITS[h[i] / 16] && Hex(h)[2 * i + 1] == HEX_DIGITS[h[i] % 16]
  {
    if i < |h| - 1 {
      HexDigitsAt(h[..|h| - 1], i);
    } else {
      HexCharIs(h[i] / 16);
      HexCharIs(h[i] % 16);
    }
  }

  lemma HexCharIs(d: nat)
    requires d < 16
    ensures HexChar(d) == HEX_DIGITS[d]
  {
    assert HexChar(9) == '9' && HexChar(10) == 'a' && HexChar(15) == 'f';
  }

  const PENDING: string := "<pending>"

  function HashColumn(hash: Digest, valid: bool): string {
    if valid then Hex(hash) else PENDING
  }

  /** The column tells a valid digest from a pending one and valid digests from each other. */
  lemma HashColumnFaithful(a: Digest, validA: bool, b: Digest, validB: bool)
    ensures HashColumn(a, validA) == HashColumn(b, validB) <==> validA == validB && (validA ==> a == b)
  {
    HexDecodes(a);
    HexDecodes(b);
  }

  /** The rendering loop of the file listing, writing three bytes at a time into a 65-byte buffer
      that holds anything to start with. */
  method RenderHash(hash: Digest, valid: bool) returns (buf: array<char>)
    ensures buf.Length == 2 * HASH_SIZE + 1 && NUL in buf[..]
    ensures Str(buf[..]) == HashColumn(hash, valid)
  {
    buf := new char[2 * HASH_SIZE + 1];
    HexDecodes(hash);
    WriteHex(buf, hash, valid);
    if !valid {
      WritePending(buf);
    }
    StrAt(buf[..], HashColumn(hash, valid));
  }

  method WriteHex(buf: array<char>, hash: Digest, valid: bool)
    requires buf.Length == 2 * HASH_SIZE + 1
    modifies buf
    ensures valid ==> buf[..2 * HASH_SIZE] == Hex(hash) && buf[2 * HASH_SIZE] == NUL
  {
    var i := 0;
    while i < HASH_SIZE && valid
      invariant 0 <= i <= HASH_SIZE
      invariant i > 0 ==> buf[2 * i] == NUL
      invariant buf[..2 * i] == Hex(hash[..i])
    {
      WriteByte(buf, 2 * i, hash[i]);
      HexPrefix(hash, i);
      i := i + 1;
    }
    if valid {
      assert hash[..i] == hash;
    }
  }

  /** snprintf(buf + at, 3, "%02x", b). */
  method WriteByte(buf: array<char>, at: nat, b: Byte)
    requires at + 2 < buf.Length
    modifies buf
    ensures buf[..at + 2] == old(buf[..at]) + [HexChar(b / 16), HexChar(b % 16)] && buf[at + 2] == NUL
  {
    buf[at] := HexChar(b / 16);
    buf[at + 1] := HexChar(b % 16);
    buf[at + 2] := NUL;
  }

  lemma HexPrefix(h: seq<Byte>, i: nat)
    requires i < |h|
    ensures Hex(h[..i + 1]) == Hex(h[..i]) + [HexChar(h[i] / 16), HexChar(h[i] % 16)]
  {
    assert h[..i + 1] == h[..i] + [h[i]];
  }

  method WritePending(buf: array<char>)
    requires buf.Length > |PENDING|
    modifies buf
    ensures buf[..|PENDING|] == PENDING && buf[|PENDING|] == NUL
  {
    var k := 0;
    while k < |PENDING|
      invariant 0 <= k <= |PENDING| && buf[..k] == PENDING[..k]
    {
      buf[k] := PENDING[k];
      assert buf[..k + 1] == buf[..k] + [buf[k]];
      k := k + 1;
    }
    buf[k] := NUL;
    assert buf[..k] == PENDING[..k] == PENDING;
  }
}

/** The text side of the control interface: how a write is normalised and parsed, how the
    stores are listed, and what happens when a listing is written back. */
module ControlText {
  import opened Kernel
  import opened CString
  import opened Decimal

  // ----- normalisation -------------------------------------------------------

  predicate IsLineEnd(c: char) {
    c == '\n' || c == '\r'
  }

  /** The text without its longest trailing run of CR and LF. */
  function Trim(t: string): (r: string)
    ensures r <= t
    ensures forall i :: |r| <= i < |t| ==> IsLineEnd(t[i])
    ensures r == "" || !IsLineEnd(r[|r| - 1])
  {
    if t != "" && IsLineEnd(t[|t| - 1]) then Trim(t[..|t| - 1]) else t
  }

  /** Any way of cutting exactly the trailing line ends is `Trim`. */
  lemma {:induction false} TrimUnique(t: string, r: string)
    requires r <= t && (forall i :: |r| <= i < |t| ==> IsLineEnd(t[i]))
    requires r == "" || !IsLineEnd(r[|r| - 1])
    ensures r == Trim(t)
  {
  }

  /** Copy at most max - 1 bytes into `out`, terminate, reject embedded NULs and strip trailing
      line ends in place.  `copied` is whether copy_from_user succeeds. */
  method GetString(ubuf: string, copied: bool, out: array<char>, max: nat) returns (ret: int)
    requires 0 < max <= out.Length
    modifies out
    ensures !copied ==> ret == -EFAULT
    ensures var taken := ubuf[..Min(|ubuf|, max - 1)];
            copied ==>
              if NUL in taken then ret == -EINVAL
              else ret == |Trim(taken)| && ret < max && out[..ret] == Trim(taken) && out[ret] == NUL
    ensures forall i :: max <= i < out.Length ==> out[i] == old(out[i])
  {
    var n := if |ubuf| < max - 1 then |ubuf| else max - 1;
    if !copied {
      return -EFAULT;
    }
    var i := 0;
    while i < n
      invariant 0 <= i <= n
      invariant out[..i] == ubuf[..i]
      invariant forall k :: n <= k < out.Length ==> out[k] == old(out[k])
    {
      out[i] := ubuf[i];
      i := i + 1;
    }
    out[n] := NUL;
    ghost var taken := ubuf[..n];
    assert out[..n] == taken;
    var len := Strnlen(out, n);
    if len != n {
      assert taken[len] == NUL;
      return -EINVAL;
    }
    ret := n;
    while ret > 0 && IsLineEnd(out[ret - 1])
      invariant 0 <= ret <= n
      invariant out[ret] == NUL
      invariant out[..ret] == taken[..ret]
      invariant forall k :: ret <= k < n ==> IsLineEnd(taken[k])
      invariant forall k :: max <= k < out.Length ==> out[k] == old(out[k])
    {
      assert taken[ret - 1] == taken[..ret][ret - 1] == out[ret - 1];
      ret := ret - 1;
      out[ret] := NUL;
      assert out[..ret] == taken[..ret];
    }
    if ret > 0 {
      assert taken[..ret][ret - 1] == out[ret - 1];
    }
    TrimUnique(taken, taken[..ret]);
  }

  method Strnlen(buf: array<char>, n: nat) returns (len: nat)
    requires n <= buf.Length
    ensures len <= n && NUL !in buf[..len] && (len < n ==> buf[len] == NUL)
  {
    len := 0;
    while len < n && buf[len] != NUL
      invariant 0 <= len <= n && NUL !in buf[..len]
    {
      assert buf[..len + 1] == buf[..len] + [buf[len]];
      len := len + 1;
    }
  }

  // ----- sscanf(buf, "%15s %d", ...) -----------------------------------------

  /** isspace of the kernel's character table. */
  predicate IsSpace(c: char) {
    c == ' ' || '\t' <= c <= '\r' || c == '\U{A0}'
  }

  predicate SpaceFree(s: string) {
    forall i :: 0 <= i < |s| ==> !IsSpace(s[i])
  }

  predicate Blank(s: string) {
    forall i :: 0 <= i < |s| ==> IsSpace(s[i])
  }

  function SkipSpaces(s: string): string {
    if s != "" && IsSpace(s[0]) then SkipSpaces(s[1..]) else s
  }

  /** What %s stores when at most `width` characters fit. */
  function Word(s: string, width: nat): (w: string)
    ensures w <= s && |w| <= width && SpaceFree(w)
    ensures |w| < width && |w| < |s| ==> IsSpace(s[|w|])
  {
    if s == "" || IsSpace(s[0]) || width == 0 then ""
    else [s[0]] + Word(s[1..], width - 1)
  }

  /** What %d stores, if the input continues with a number. */
  function ScanInt(s: string): Option<int> {
    var negative := s != "" && s[0] == '-';
    var body := if negative then s[1..] else s;
    var k := LeadingDigits(body);
    if k == 0 then None
    else Some(ToInt32(if negative then 0 - Value(body[..k]) else Value(body[..k]) as int))
  }

  /** The name and pid that a process endpoint makes of its input; the pid defaults to 0.
      Blank but non-empty input yields an empty name. */
  function ScanCommPid(s: string): Option<(string, int)> {
    if s == "" then None
    else
      var t := SkipSpaces(s);
      var comm := Word(t, COMM_LEN - 1);
      var rest := SkipSpaces(t[|comm|..]);
      match ScanInt(rest)
      case None => Some((comm, 0))
      case Some(pid) => Some((comm, pid))
  }

  // ----- kstrtoint(buf, 10, ...) ---------------------------------------------

  /** The part of kstrtoint after the sign. */
  function Unsigned(body: string, negative: bool): Option<int> {
    var k := LeadingDigits(body);
    var rest := body[k..];
    if k == 0 || (rest != "" && rest != "\n") then None
    else
      var n: int := if negative then 0 - Value(body[..k]) else Value(body[..k]);
      if IsInt32(n) then Some(n) else None
  }

  function ScanNr(s: string): Option<int> {
    var negative := s != "" && s[0] == '-';
    var body := if s != "" && (s[0] == '-' || s[0] == '+') then s[1..] else s;
    Unsigned(body, negative)
  }

  // ----- listings ------------------------------------------------------------

  function Spaces(n: int): (s: string)
    ensures forall i :: 0 <= i < |s| ==> s[i] == ' '
    ensures |s| == if n < 0 then 0 else n
  {
    if n <= 0 then "" else [' '] + Spaces(n - 1)
  }

  /** The blanks between a name and a number printed with %-20s %8d. */
  function Gap(comm: string, num: string): (gap: string)
    ensures gap != "" && forall i :: 0 <= i < |gap| ==> gap[i] == ' '
    ensures |gap| <= 29
  {
    Spaces(20 - |comm|) + " " + Spaces(8 - |num|)
  }

  /** %-20s %8d and a newline. */
  function ProcRow(comm: string, pid: int): string {
    comm + Gap(comm, PrintInt(pid)) + PrintInt(pid) + "\n"
  }

  /** %8d and a newline. */
  function NrRow(nr: int): string {
    Spaces(8 - |PrintInt(nr)|) + PrintInt(nr) + "\n"
  }

  /** %-40s %s and a newline. */
  function FileRow(path: string, hash: string): string {
    path + Spaces(40 - |path|) + " " + hash + "\n"
  }

  // ----- writing a listing back ----------------------------------------------

  lemma {:induction false} SkipAll(blank: string, rest: string)
    requires Blank(blank)
    requires rest == "" || !IsSpace(rest[0])
    ensures SkipSpaces(blank + rest) == rest
  {
    if blank == "" {
      assert blank + rest == rest;
    } else {
      assert (blank + rest)[1..] == blank[1..] + rest;
      SkipAll(blank[1..], rest);
    }
  }

  lemma {:induction false} WordOf(w: string, rest: string, width: nat)
    requires SpaceFree(w) && |w| <= width && (rest == "" || IsSpace(rest[0]))
    ensures Word(w + rest, width) == w
  {
    if w == "" {
      assert w + rest == rest;
    } else {
      assert (w + rest)[1..] == w[1..] + rest;
      WordOf(w[1..], rest, width - 1);
    }
  }

  /** %d takes an optional minus and the longest run of digits after it, whatever follows ... */
  lemma ScanIntExact(ds: string, junk: string, minus: bool)
    requires ds != "" && AllDigits(ds) && (junk == "" || !IsDigit(junk[0]))
    ensures minus ==> ScanInt(['-'] + (ds + junk)) == Some(ToInt32(0 - Value(ds)))
    ensures !minus ==> ScanInt(ds + junk) == Some(ToInt32(Value(ds)))
  {
    var body := ds + junk;
    LeadingDigitsOf(ds, junk);
    assert body[..|ds|] == ds && IsDigit(body[0]);
    if minus {
      assert (['-'] + body)[1..] == body;
    }
  }

  /** %d reads back what %d printed. */
  lemma ScanPrinted(n: int)
    requires IsInt32(n)
    ensures ScanInt(PrintInt(n)) == Some(n)
  {
    var m := if n < 0 then -n else n;
    ValueOfDigits(m);
    ScanIntExact(Digits(m), "", n < 0);
    assert Digits(m) + "" == Digits(m);
  }

  /** ... and nothing if there is none. */
  lemma ScanIntNone(s: string)
    requires s == "" || s == "-" || (!IsDigit(s[0]) && s[0] != '-') || (s[0] == '-' && |s| > 1 && !IsDigit(s[1]))
    ensures ScanInt(s) == None
  {
  }

  /** The endpoint's reading of any text: leading blanks are skipped, the name is the first word,
      cut at 15 characters, and the pid is the number that comes next, or 0 if none does. */
  lemma ScanCommPidExact(lead: string, comm: string, gap: string, rest: string)
    requires Blank(lead) && SpaceFree(comm) && |comm| < COMM_LEN && Blank(gap) && (rest == "" || !IsSpace(rest[0]))
    requires lead + comm != "" && (comm == "" ==> gap == "" && rest == "")
    requires |comm| < COMM_LEN - 1 && gap == "" ==> rest == ""
    ensures ScanCommPid(lead + comm + gap + rest) == Some((comm, if ScanInt(rest).Some? then ScanInt(rest).value else 0))
  {
    var s, t := lead + comm + gap + rest, comm + (gap + rest);
    assert s == lead + t;
    SkipAll(lead, t);
    if |comm| < COMM_LEN - 1 || gap != "" {
      WordOf(comm, gap + rest, COMM_LEN - 1);
    } else {
      WordCut(comm, gap + rest);
    }
    assert t[|comm|..] == gap + rest;
    SkipAll(gap, rest);
  }

  /** A word of full width is cut off wherever it stands. */
  lemma {:induction false} WordCut(w: string, rest: string)
    requires SpaceFree(w)
    ensures Word(w + rest, |w|) == w
  {
    if w != "" {
      assert (w + rest)[1..] == w[1..] + rest;
      WordCut(w[1..], rest);
    }
  }

  /** A name written alone means pid 0. */
  lemma NameAlone(comm: string)
    requires comm != "" && SpaceFree(comm) && |comm| < COMM_LEN
    ensures ScanCommPid(comm) == Some((comm, 0))
  {
    ScanIntNone("");
    ScanCommPidExact("", comm, "", "");
    assert "" + comm + "" + "" == comm;
  }

  lemma ScanBlankName(gap: string, num: string)
    requires forall i :: 0 <= i < |gap| ==> gap[i] == ' '
    requires num != "" && !IsSpace(num[0])
    ensures ScanCommPid(gap + num).Some? && ScanCommPid(gap + num).value.0 != ""
  {
    SkipAll(gap, num);
    assert Word(num, COMM_LEN - 1) == [num[0]] + Word(num[1..], COMM_LEN - 2);
  }

  /** A row of the process listing, written back to a process endpoint, names the listed entry
      exactly when the entry's name is not empty. */
  lemma ProcRowReadsBack(comm: string, pid: int)
    requires SpaceFree(comm) && |comm| < COMM_LEN && IsInt32(pid)
    ensures ScanCommPid(Trim(ProcRow(comm, pid))) == Some((comm, pid)) <==> comm != ""
    ensures ScanCommPid(Trim(ProcRow(comm, pid))).Some? && ScanCommPid(Trim(ProcRow(comm, pid))).value.0 != ""
  {
    var num := PrintInt(pid);
    var gap := Gap(comm, num);
    ScanPrinted(pid);
    ScanRow(comm, gap, num, pid);
  }

  lemma ScanRow(comm: string, gap: string, num: string, pid: int)
    requires SpaceFree(comm) && |comm| < COMM_LEN
    requires gap != "" && forall i :: 0 <= i < |gap| ==> gap[i] == ' '
    requires num != "" && !IsSpace(num[0]) && ScanInt(num) == Some(pid)
    ensures ScanCommPid(comm + gap + num) == Some((comm, pid)) <==> comm != ""
    ensures ScanCommPid(comm + gap + num).Some? && ScanCommPid(comm + gap + num).value.0 != ""
  {
    if comm != "" {
      ScanCommPidExact("", comm, gap, num);
      assert "" + comm + gap + num == comm + gap + num;
    } else {
      assert comm + gap + num == gap + num;
      ScanBlankName(gap, num);
    }
  }

  /** kstrtoint takes digits, with at most one sign before them and at most one newline after
      them, and only if the number fits; any other text after the digits is rejected. */
  lemma ScanNrExact(sign: string, ds: string, rest: string)
    requires sign == "" || sign == "+" || sign == "-"
    requires ds != "" && AllDigits(ds) && (rest == "" || !IsDigit(rest[0]))
    ensures var n := if sign == "-" then 0 - Value(ds) else Value(ds);
            ScanNr(sign + (ds + rest)) == if (rest == "" || rest == "\n") && IsInt32(n) then Some(n) else None
  {
    var body := ds + rest;
    UnsignedExact(ds, rest, sign == "-");
    if sign == "" {
      assert sign + body == body && IsDigit(body[0]);
    } else {
      assert (sign + body)[0] == sign[0] && (sign + body)[1..] == body;
    }
  }

  lemma UnsignedExact(ds: string, rest: string, negative: bool)
    requires ds != "" && AllDigits(ds) && (rest == "" || !IsDigit(rest[0]))
    ensures var n := if negative then 0 - Value(ds) else Value(ds);
            Unsigned(ds + rest, negative) == if (rest == "" || rest == "\n") && IsInt32(n) then Some(n) else None
  {
    LeadingDigitsOf(ds, rest);
    var body := ds + rest;
    assert body[..|ds|] == ds && body[|ds|..] == rest;
  }

  lemma ScanDigits(nr: nat)
    requires IsInt32(nr)
    ensures ScanNr(Digits(nr)) == Some(nr)
  {
    ValueOfDigits(nr);
    ScanNrExact("", Digits(nr), "");
    assert "" + (Digits(nr) + "") == Digits(nr);
  }

  /** The columns of the listings: names to width 20, numbers to width 8, paths to width 40. */
  lemma RowColumns(name: string, n: int, hash: string)
    ensures ProcRow(name, n)[..|name|] == name && |ProcRow(name, n)| == Max(20, |name|) + Max(8, |PrintInt(n)|) + 2
    ensures |NrRow(n)| == Max(8, |PrintInt(n)|) + 1
    ensures FileRow(name, hash)[..|name|] == name && |FileRow(name, hash)| == Max(40, |name|) + |hash| + 2
  {
  }

  /** A row of the system call listing, written back, is accepted as its own number exactly
      from ten million on; below that its leading blanks make kstrtoint reject it. */
  lemma NrRowReadsBack(nr: int)
    requires 0 <= nr && IsInt32(nr)
    ensures ScanNr(Trim(NrRow(nr))) == if nr >= 10_000_000 then Some(nr) else None
  {
    var ds := Digits(nr);
    DigitCount(nr, 7);
    assert Pow10(7) == 10_000_000;
    var blank := Spaces(8 - |ds|);
    if nr >= 10_000_000 {
      assert blank + ds == ds;
      ScanDigits(nr);
    } else {
      assert blank[0] == ' ';
    }
  }

  /** A row of the file listing never names the listed path. */
  lemma FileRowNamesAnother(path: string, hash: string)
    requires hash != "" && !IsLineEnd(hash[|hash| - 1])
    ensures Trim(FileRow(path, hash)) != path
  {
  }
}

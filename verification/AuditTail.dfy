/** `aegisctl audit N`: count the tag over the raw log, then tokenise it and print the tagged
    lines past the first total - N (devkit/src/aegisctl.c). */
module AuditTail {
  import opened Kernel
  import opened CString
  import opened ControlText

  const TAG: string := "aegis:"

  /** The tag starts here. */
  predicate Starts(t: string) {
    TAG <= t
  }

  /** How many times the tag occurs. */
  function Count(t: string): nat {
    if t == "" then 0 else (if Starts(t) then 1 else 0) + Count(t[1..])
  }

  /** The text from the first tag on, as strstr finds it. */
  function Strstr(t: string): Option<string> {
    if Starts(t) then Some(t) else if t == "" then None else Strstr(t[1..])
  }

  lemma {:induction false} StrstrCounts(t: string)
    ensures Strstr(t).None? <==> Count(t) == 0
    ensures Strstr(t).Some? ==>
              var s := Strstr(t).value; s != "" && |s| <= |t| && s == t[|t| - |s|..] && Starts(s) && Count(t) == Count(s)
  {
    if t != "" && !Starts(t) {
      StrstrCounts(t[1..]);
    }
  }

  // ----- lines as strtok_r(buf, "\n") yields them ----------------------------

  /** Length of the part before the first newline. */
  function LineLength(t: string): (k: nat)
    ensures k <= |t| && (k < |t| ==> t[k] == '\n')
    ensures forall i :: 0 <= i < k ==> t[i] != '\n'
  {
    if t == "" || t[0] == '\n' then 0
    else
      var k := LineLength(t[1..]);
      assert forall i :: 0 < i <= k ==> t[i] == t[1..][i - 1];
      k + 1
  }

  /** The non-empty lines. */
  function Tokens(t: string): seq<string>
    decreases |t|
  {
    if t == "" then []
    else if t[0] == '\n' then Tokens(t[1..])
    else
      var k := LineLength(t);
      [t[..k]] + Tokens(t[k..])
  }

  /** What is printed of the tagged lines, in order. */
  function Tags(lines: seq<string>): seq<string> {
    if lines == [] then []
    else match Strstr(lines[0])
      case None => Tags(lines[1..])
      case Some(s) => [s] + Tags(lines[1..])
  }

  function Events(log: string): seq<string> {
    Tags(Tokens(log))
  }

  function Skipped(total: nat, want: nat): nat {
    if total > want then total - want else 0
  }

  // ----- counting over the buffer is counting over the lines -----------------

  function SumCounts(lines: seq<string>): nat {
    if lines == [] then 0 else Count(lines[0]) + SumCounts(lines[1..])
  }

  lemma ShortNeverStarts(a: string, b: string)
    requires |a| < |TAG| && (b == "" || b[0] == '\n')
    ensures !Starts(a + b)
  {
    assert forall k :: 0 <= k < |TAG| ==> TAG[k] != '\n';
    if b != "" {
      assert (a + b)[|a|] == '\n';
    }
  }

  lemma StartsSplits(a: string, b: string)
    requires b == "" || b[0] == '\n'
    ensures Starts(a + b) <==> Starts(a)
  {
    if |a| < |TAG| {
      ShortNeverStarts(a, b);
    } else {
      assert (a + b)[..|TAG|] == a[..|TAG|];
    }
  }

  /** No occurrence spans a newline. */
  lemma {:induction false} CountSplits(a: string, b: string)
    requires '\n' !in a && (b == "" || b[0] == '\n')
    ensures Count(a + b) == Count(a) + Count(b)
  {
    if a == "" {
      assert a + b == b;
    } else {
      assert (a + b)[1..] == a[1..] + b;
      CountSplits(a[1..], b);
      StartsSplits(a, b);
    }
  }

  lemma {:induction false} CountOfTokens(t: string)
    ensures Count(t) == SumCounts(Tokens(t))
    decreases |t|
  {
    if t == "" {
    } else if t[0] == '\n' {
      CountOfTokens(t[1..]);
    } else {
      var k := LineLength(t);
      assert t == t[..k] + t[k..];
      CountSplits(t[..k], t[k..]);
      CountOfTokens(t[k..]);
    }
  }

  // ----- what the events are, line by line -----------------------------------

  lemma {:induction false} TagsConcat(a: seq<string>, b: seq<string>)
    ensures Tags(a + b) == Tags(a) + Tags(b)
  {
    if a == [] {
      assert a + b == b;
    } else {
      assert (a + b)[1..] == a[1..] + b;
      TagsConcat(a[1..], b);
    }
  }

  lemma {:induction false} TokensJoin(a: string, b: string)
    ensures Tokens(a + "\n" + b) == Tokens(a) + Tokens(b)
    decreases |a|
  {
    var t := a + "\n" + b;
    if a == "" {
      assert t[1..] == b;
    } else if a[0] == '\n' {
      assert t[1..] == a[1..] + "\n" + b;
      TokensJoin(a[1..], b);
    } else {
      var k := LineLength(a);
      assert t[k] == '\n' && forall i :: 0 <= i < k ==> t[i] == a[i];
      assert t[..k] == a[..k] && t[k..] == a[k..] + "\n" + b;
      TokensJoin(a[k..], b);
    }
  }

  /** The events of a log are those of its parts around any newline, in order. */
  lemma EventsJoin(a: string, b: string)
    ensures Events(a + "\n" + b) == Events(a) + Events(b)
  {
    TokensJoin(a, b);
    TagsConcat(Tokens(a), Tokens(b));
  }

  lemma {:induction false} StrstrFirst(t: string, k: nat)
    requires k <= |t| && Starts(t[k..]) && forall j :: 0 <= j < k ==> !Starts(t[j..])
    ensures Strstr(t) == Some(t[k..])
  {
    if k == 0 {
      assert t[0..] == t;
    } else {
      assert t[0..] == t;
      assert forall j :: 0 <= j < k ==> t[1..][j..] == t[j + 1..];
      StrstrFirst(t[1..], k - 1);
    }
  }

  lemma {:induction false} StrstrNone(t: string)
    requires forall j :: 0 <= j <= |t| ==> !Starts(t[j..])
    ensures Strstr(t) == None
  {
    assert t[0..] == t;
    if t != "" {
      assert forall j :: 0 <= j <= |t[1..]| ==> t[1..][j..] == t[j + 1..];
      StrstrNone(t[1..]);
    }
  }

  /** The event of a single line is the line from its first tag on, if it has one. */
  lemma EventOfLine(line: string, k: nat)
    requires '\n' !in line && k <= |line| && forall j :: 0 <= j < k ==> !Starts(line[j..])
    ensures Starts(line[k..]) ==> Events(line) == [line[k..]]
    ensures k == |line| ==> Events(line) == []
  {
    if line != "" {
      TokensCut(line, |line|);
      assert line[..|line|] == line && Tokens(line) == [line];
      assert [line][0] == line && [line][1..] == [] && Tags([]) == [];
      assert Events(line) == if Strstr(line).Some? then [Strstr(line).value] else [];
      if Starts(line[k..]) {
        StrstrFirst(line, k);
      } else if k == |line| {
        StrstrNone(line);
      }
    }
  }

  /** No line carries the tag twice. */
  predicate NoDouble(lines: seq<string>) {
    forall i :: 0 <= i < |lines| ==> Count(lines[i]) <= 1
  }

  lemma {:induction false} TaggedAtMost(lines: seq<string>)
    ensures |Tags(lines)| <= SumCounts(lines)
    ensures |Tags(lines)| == SumCounts(lines) <==> NoDouble(lines)
    ensures |Tags(lines)| == 0 ==> SumCounts(lines) == 0
  {
    if lines != [] {
      StrstrCounts(lines[0]);
      TaggedAtMost(lines[1..]);
    }
  }

  /** What the command shows. */
  function Shown(log: string, want: nat): (out: seq<string>) {
    Events(log)[Min(Skipped(Count(log), want), |Events(log)|)..]
  }

  /** Never more than `want` lines, always a suffix of the tagged lines, and the whole last
      min(want, tagged) of them exactly when the log holds at most `want` tags or no line
      carries the tag twice. */
  lemma TailIsExact(log: string, want: nat)
    requires want > 0  // the command rejects anything else
    ensures |Shown(log, want)| <= want
    ensures Shown(log, want) == Events(log)[|Events(log)| - |Shown(log, want)|..]
    ensures |Shown(log, want)| == Min(want, |Events(log)|) <==> Count(log) <= want || NoDouble(Tokens(log))
  {
    CountOfTokens(log);
    TaggedAtMost(Tokens(log));
  }

  lemma {:induction false} CountInsideTag(i: nat, t: string)
    requires 1 <= i <= |TAG|
    ensures Count(TAG[i..] + t) == Count(t)
    decreases |TAG| - i
  {
    var u := TAG[i..] + t;
    if i == |TAG| {
      assert u == t;
    } else {
      assert u[0] == TAG[i] != 'a' == TAG[0];
      assert u[1..] == TAG[i + 1..] + t;
      CountInsideTag(i + 1, t);
    }
  }

  /** A tag adds one to the count of what follows it. */
  lemma CountAfterTag(t: string)
    ensures Starts(TAG + t) && Count(TAG + t) == 1 + Count(t)
  {
    assert (TAG + t)[1..] == TAG[1..] + t;
    CountInsideTag(1, t);
  }

  /** A log of two tagged lines, one of which carries the tag twice: asked for the last event,
      the command shows none. */
  lemma DoubleTagHides()
    ensures var log := TAG + TAG + "\n" + TAG;
            Count(log) == 3 && Events(log) == [TAG + TAG, TAG] && Shown(log, 1) == []
  {
    var log := TAG + TAG + "\n" + TAG;
    TokensOfTwo(TAG + TAG, TAG);
    CountAfterTag("");
    assert TAG + "" == TAG;
    CountAfterTag(TAG);
    CountOfTokens(log);
    TwoTagged(TAG + TAG, TAG);
  }

  lemma TwoTagged(a: string, b: string)
    requires Starts(a) && Starts(b)
    ensures SumCounts([a, b]) == Count(a) + Count(b) && Tags([a, b]) == [a, b]
  {
    assert [a, b][1..] == [b] && [b][1..] == [];
    assert SumCounts([b]) == Count(b) && Tags([b]) == [b];
  }

  lemma TokensOfTwo(a: string, b: string)
    requires a != "" && b != "" && '\n' !in a && '\n' !in b
    ensures Tokens(a + "\n" + b) == [a, b]
  {
    var t := a + "\n" + b;
    TokensCut(t, |a|);
    assert t[..|a|] == a && t[|a| + 1..] == b;
    TokensCut(b, |b|);
    assert b[..|b|] == b;
  }

  // ----- the command ---------------------------------------------------------

  /** strstr over the buffer: the position of the first tag at or after `from`. */
  method FindTag(buf: array<char>, from: nat, end: nat) returns (at: Option<nat>)
    requires from <= end < buf.Length
    ensures at.None? ==> Strstr(buf[from..end]).None?
    ensures at.Some? ==> from <= at.value < end && Strstr(buf[from..end]) == Some(buf[at.value..end])
  {
    var i := from;
    while true
      invariant from <= i <= end && Strstr(buf[from..end]) == Strstr(buf[i..end])
      decreases end - i
    {
      if end - i >= |TAG| {
        assert buf[i..end][..|TAG|] == buf[i..i + |TAG|];
        if buf[i..i + |TAG|] == TAG {
          return Some(i);
        }
      }
      if i == end {
        return None;
      }
      assert buf[i..end][1..] == buf[i + 1..end];
      i := i + 1;
    }
  }

  lemma CountPastHit(t: string)
    ensures match Strstr(t)
            case None => Count(t) == 0
            case Some(s) => s != "" && Count(t) == 1 + Count(s[1..])
  {
  }

  /** First pass: restart the search one byte past each hit. */
  method CountTags(buf: array<char>, end: nat) returns (total: nat)
    requires end < buf.Length
    ensures total == Count(buf[..end])
  {
    total := 0;
    var line := 0;
    ghost var log := buf[..end];
    assert buf[0..end] == log;
    while true
      invariant line <= end && total + Count(buf[line..end]) == Count(log)
      decreases end - line
    {
      var hit := FindTag(buf, line, end);
      CountPastHit(buf[line..end]);
      if hit.None? {
        return;
      }
      total := total + 1;
      assert buf[hit.value..end][1..] == buf[hit.value + 1..end];
      line := hit.value + 1;
    }
  }

  /** Cutting the first line off at its newline. */
  lemma TokensCut(t: string, k: nat)
    requires 0 < k <= |t| && (k < |t| ==> t[k] == '\n') && forall i :: 0 <= i < k ==> t[i] != '\n'
    ensures Tokens(t) == [t[..k]] + Tokens(if k < |t| then t[k + 1..] else "")
  {
    assert LineLength(t) == k;
    if k < |t| {
      assert t[k..][1..] == t[k + 1..];
      assert Tokens(t[k..]) == Tokens(t[k + 1..]);
    } else {
      assert t[k..] == "";
    }
  }

  method SkipNewlines(buf: array<char>, save: nat, end: nat) returns (s: nat)
    requires save <= end < buf.Length && buf[end] == NUL
    ensures save <= s <= end && buf[s] != '\n'
    ensures Tokens(buf[save..end]) == Tokens(buf[s..end])
  {
    s := save;
    while buf[s] == '\n'
      invariant save <= s <= end
      invariant Tokens(buf[save..end]) == Tokens(buf[s..end])
      decreases end - s
    {
      assert buf[s..end][1..] == buf[s + 1..end];
      s := s + 1;
    }
  }

  method LineStop(buf: array<char>, s: nat, end: nat) returns (e: nat)
    requires s <= end < buf.Length && buf[end] == NUL
    ensures s <= e <= end && (buf[e] == '\n' || buf[e] == NUL)
    ensures forall i :: s <= i < e ==> buf[i] != '\n' && buf[i] != NUL
  {
    e := s;
    while buf[e] != '\n' && buf[e] != NUL
      invariant s <= e <= end && forall i :: s <= i < e ==> buf[i] != '\n' && buf[i] != NUL
      decreases end - e
    {
      e := e + 1;
    }
  }

  /** The bytes from `save` up to the terminator at `end` are text. */
  ghost predicate TextFrom(buf: array<char>, save: nat, end: nat)
    reads buf
  {
    save <= end < buf.Length && buf[end] == NUL && forall i :: save <= i < end ==> buf[i] != NUL
  }

  /** The same cut seen in the buffer. */
  lemma CutTokens(buf: seq<char>, s: nat, e: nat, end: nat)
    requires s < e <= end <= |buf| && (e < end ==> buf[e] == '\n') && forall i :: s <= i < e ==> buf[i] != '\n'
    ensures Tokens(buf[s..end]) == [buf[s..e]] + Tokens(if e < end then buf[e + 1..end] else "")
  {
    Slices(buf, s, e, end);
    TokensCut(buf[s..end], e - s);
  }

  lemma Slices(buf: seq<char>, s: nat, e: nat, end: nat)
    requires s <= e <= end <= |buf|
    ensures buf[s..end][..e - s] == buf[s..e] && (e < end ==> buf[s..end][e - s + 1..] == buf[e + 1..end])
  {
  }

  /** Cut the line starting at `s` off at its newline, if it has one. */
  method CutLine(buf: array<char>, s: nat, end: nat) returns (stop: nat, save': nat)
    requires TextFrom(buf, s, end) && s < end && buf[s] != '\n'
    modifies buf
    ensures s < stop < buf.Length && stop <= save' && TextFrom(buf, save', end)
    ensures forall i :: save' <= i < buf.Length ==> buf[i] == old(buf[i])
    ensures Tokens(old(buf[s..end])) == [buf[s..stop]] + Tokens(buf[save'..end])
  {
    stop := LineStop(buf, s, end);
    CutTokens(buf[..], s, stop, end);
    ghost var text, line := buf[s..end], buf[s..stop];
    assert buf[..][s..end] == text && buf[..][s..stop] == line;
    if buf[stop] == NUL {
      save' := stop;
      assert buf[save'..end] == "";
    } else {
      ghost var tail := buf[stop + 1..end];
      assert buf[..][stop + 1..end] == tail;
      buf[stop] := NUL;
      save' := stop + 1;
      assert buf[s..stop] == line && buf[save'..end] == tail;
    }
  }

  /** strtok_r(NULL, newline, &save): skip newlines, cut the next line off in place. */
  method Strtok(buf: array<char>, save: nat, end: nat) returns (tok: Option<nat>, stop: nat, save': nat)
    requires TextFrom(buf, save, end)
    modifies buf
    ensures save <= save' && TextFrom(buf, save', end)
    ensures forall i :: save' <= i < buf.Length ==> buf[i] == old(buf[i])
    ensures tok.None? ==> Tokens(old(buf[save..end])) == []
    ensures tok.Some? ==>
              && tok.value < stop < buf.Length
              && Tokens(old(buf[save..end])) == [buf[tok.value..stop]] + Tokens(buf[save'..end])
  {
    var s := SkipNewlines(buf, save, end);
    if buf[s] == NUL {
      return None, s, s;
    }
    tok := Some(s);
    stop, save' := CutLine(buf, s, end);
  }

  /** What one more line contributes to the events. */
  lemma TagsStep(lines: seq<string>, events: seq<string>, idx: nat, skip: nat)
    requires lines != [] && idx <= |events| && Tags(lines) == events[idx..]
    ensures match Strstr(lines[0])
            case None => Tags(lines[1..]) == events[idx..]
            case Some(s) =>
              && idx < |events| && events[idx] == s && Tags(lines[1..]) == events[idx + 1..]
              && events[Min(skip, idx + 1)..idx + 1] ==
                 events[Min(skip, idx)..idx] + if idx < skip then [] else [s]
  {
    match Strstr(lines[0])
    case None =>
    case Some(s) =>
      assert Tags(lines) == [s] + Tags(lines[1..]);
      assert events[idx] == events[idx..][0] == s;
      assert events[idx + 1..] == events[idx..][1..] == Tags(lines[1..]);
  }

  /** One line of the second pass: skip it, or print it from its tag on. */
  method Consider(buf: array<char>, from: nat, stop: nat, idx: nat, skip: nat, out: seq<string>)
      returns (idx': nat, out': seq<string>)
    requires from <= stop < buf.Length
    ensures match Strstr(buf[from..stop])
            case None => idx' == idx && out' == out
            case Some(s) => idx' == idx + 1 && out' == out + if idx < skip then [] else [s]
  {
    idx', out' := idx, out;
    var tag := FindTag(buf, from, stop);
    if tag.Some? {
      if idx >= skip {
        out' := out + [buf[tag.value..stop]];
      }
      idx' := idx + 1;
    }
  }

  /** Second pass: tokenise, skip the first `skip` tagged lines, print the rest. */
  method PrintTagged(buf: array<char>, end: nat, skip: nat) returns (out: seq<string>)
    requires TextFrom(buf, 0, end)
    modifies buf
    ensures var events := Events(old(buf[..end])); out == events[Min(skip, |events|)..]
  {
    ghost var log := buf[..end];
    ghost var events := Events(log);
    ghost var lines := Tokens(log);  // the lines not yet looked at
    assert buf[0..end] == log && events[0..] == events;
    out := [];
    var idx: nat := 0;
    var tok: Option<nat>, stop: nat, save: nat := Strtok(buf, 0, end);
    while tok.Some?
      invariant TextFrom(buf, save, end)
      invariant tok.None? ==> lines == []
      invariant tok.Some? ==> tok.value < stop < buf.Length
                              && lines == [buf[tok.value..stop]] + Tokens(buf[save..end])
      invariant idx <= |events| && Tags(lines) == events[idx..]
      invariant out == events[Min(skip, idx)..idx]
      decreases |lines|
    {
      assert lines[0] == buf[tok.value..stop];
      TagsStep(lines, events, idx, skip);
      idx, out := Consider(buf, tok.value, stop, idx, skip, out);
      lines := lines[1..];
      assert lines == Tokens(buf[save..end]);
      tok, stop, save := Strtok(buf, save, end);
    }
    assert events[idx..] == [];
  }

  /** The whole command on the `n` bytes klogctl returned, with N already parsed and positive.
      Every search stops at the first NUL, so the log is the C string in the buffer. */
  method CmdAudit(buf: array<char>, n: nat, want: nat) returns (out: seq<string>, total: nat)
    requires n < buf.Length && want > 0
    modifies buf
    ensures var log := Str(old(buf[..n]) + [NUL]); total == Count(log) && out == Shown(log, want)
  {
    ghost var read := buf[..n] + [NUL];
    buf[n] := NUL;
    assert buf[..n] == read[..n];
    var end := Strnlen(buf, n);
    ghost var log := buf[..end];
    assert read[..end] == log && read[end] == NUL;
    assert forall i :: 0 <= i < end ==> buf[i] == buf[..end][i];
    total := CountTags(buf, end);
    if total == 0 {
      CountOfTokens(log);
      TaggedAtMost(Tokens(log));
      return [], total;
    }
    var skip := if total > want then total - want else 0;
    out := PrintTagged(buf, end, skip);
  }
}

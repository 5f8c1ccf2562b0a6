/** The incremental request splitter of `src/ipc.rs` (`handle_readable`,
    `reject_if_oversized`) against splitting the whole byte stream at once. */
module LineSplit {
  import opened Connections

  const RETURN: Byte := 13

  /** Longest partial line kept. */
  const MAX_REQUEST_LEN := 256 * 1024 * 1024

  /** The most one read takes off the socket. */
  const READ_LEN := 1024

  // ----- the reference: split a finished stream -----

  /** First newline at or after `from`, or the length if there is none. */
  function NewlineFrom(s: seq<Byte>, from: nat): (i: nat)
    requires from <= |s|
    ensures from <= i <= |s|
    ensures forall k :: from <= k < i ==> s[k] != NEWLINE
    ensures i < |s| ==> s[i] == NEWLINE
    decreases |s| - from
  {
    if from == |s| || s[from] == NEWLINE then from else NewlineFrom(s, from + 1)
  }

  /** The complete lines, each with its newline. */
  function Complete(s: seq<Byte>): seq<seq<Byte>> {
    var i := NewlineFrom(s, 0);
    if i == |s| then [] else [s[..i + 1]] + Complete(s[i + 1..])
  }

  /** What follows the last newline. */
  function Partial(s: seq<Byte>): seq<Byte> {
    var i := NewlineFrom(s, 0);
    if i == |s| then s else Partial(s[i + 1..])
  }

  ghost predicate NewlineFree(s: seq<Byte>) {
    forall k :: 0 <= k < |s| ==> s[k] != NEWLINE
  }

  /** A line: newline-free but for its last byte. */
  ghost predicate IsLine(l: seq<Byte>) {
    |l| > 0 && l[|l| - 1] == NEWLINE && NewlineFree(l[..|l| - 1])
  }

  lemma NewlineUnique(s: seq<Byte>, i: nat)
    requires i <= |s| && NewlineFree(s[..i]) && (i < |s| ==> s[i] == NEWLINE)
    ensures NewlineFrom(s, 0) == i
  {
    assert forall k :: 0 <= k < i ==> s[k] == s[..i][k];
  }

  /** `s` starts with a known line. */
  lemma SplitHead(s: seq<Byte>, i: nat)
    requires i < |s| && s[i] == NEWLINE && NewlineFree(s[..i])
    ensures Complete(s) == [s[..i + 1]] + Complete(s[i + 1..])
    ensures Partial(s) == Partial(s[i + 1..])
  {
    NewlineUnique(s, i);
  }

  lemma SplitNone(s: seq<Byte>)
    requires NewlineFree(s)
    ensures Complete(s) == [] && Partial(s) == s
  {
  }

  /** A line in front is the first line. */
  lemma SplitCons(line: seq<Byte>, rest: seq<Byte>)
    requires IsLine(line)
    ensures Complete(line + rest) == [line] + Complete(rest) && Partial(line + rest) == Partial(rest)
  {
    var s, i := line + rest, |line| - 1;
    assert s[..i] == line[..i] && s[..i + 1] == line && s[i + 1..] == rest;
    SplitHead(s, i);
  }

  lemma FlatCons(line: seq<Byte>, lines: seq<seq<Byte>>)
    ensures Flat([line] + lines) == line + Flat(lines)
  {
    assert ([line] + lines)[1..] == lines;
  }

  /** The split adds up to the stream. */
  lemma {:induction false} SplitAddsUp(s: seq<Byte>)
    ensures Flat(Complete(s)) + Partial(s) == s
    decreases |s|
  {
    var i := NewlineFrom(s, 0);
    if i < |s| {
      var line, rest := s[..i + 1], s[i + 1..];
      var lines, part := Complete(rest), Partial(rest);
      SplitAddsUp(rest);
      SplitHead(s, i);
      FlatCons(line, lines);
      Associate(line, Flat(lines), part);
      assert line + rest == s;
    }
  }

  /** It is made of lines and a newline-free rest. */
  lemma {:induction false} SplitIntoLines(s: seq<Byte>)
    ensures NewlineFree(Partial(s))
    ensures forall k :: 0 <= k < |Complete(s)| ==> IsLine(Complete(s)[k])
    decreases |s|
  {
    var i := NewlineFrom(s, 0);
    if i < |s| {
      var line := s[..i + 1];
      SplitIntoLines(s[i + 1..]);
      assert line[..|line| - 1] == s[..i];
      assert Complete(s) == [line] + Complete(s[i + 1..]);
    }
  }

  /** And it is the only such cut: lines and a newline-free rest that add up to
      the stream are the stream's lines and rest. */
  lemma {:induction false} SplitUnique(lines: seq<seq<Byte>>, rest: seq<Byte>)
    requires NewlineFree(rest) && forall k :: 0 <= k < |lines| ==> IsLine(lines[k])
    ensures Complete(Flat(lines) + rest) == lines && Partial(Flat(lines) + rest) == rest
  {
    if lines == [] {
      assert Flat(lines) + rest == rest;
      SplitNone(rest);
    } else {
      var l, tail := lines[0], Flat(lines[1..]) + rest;
      SplitUnique(lines[1..], rest);
      Associate(l, Flat(lines[1..]), rest);
      SplitCons(l, tail);
      assert [l] + lines[1..] == lines;
    }
  }

  /** Splitting can stop anywhere and go on from the partial line. */
  lemma {:induction false} SplitAppend(s: seq<Byte>, t: seq<Byte>)
    ensures Complete(s + t) == Complete(s) + Complete(Partial(s) + t)
    ensures Partial(s + t) == Partial(Partial(s) + t)
    decreases |s|
  {
    var i := NewlineFrom(s, 0);
    if i < |s| {
      var line, rest := s[..i + 1], s[i + 1..];
      assert line[..i] == s[..i];
      SplitAppend(rest, t);
      Associate(line, rest, t);
      assert line + rest == s;
      SplitCons(line, rest);
      SplitCons(line, rest + t);
      Associate([line], Complete(rest), Complete(Partial(rest) + t));
    } else {
      SplitNone(s);
    }
  }

  // ----- what one read does with the lines it finds -----

  /** Nothing is left of it once newlines and carriage returns are trimmed off. */
  predicate Blank(line: seq<Byte>) {
    forall b :: b in line ==> b == NEWLINE || b == RETURN
  }

  predicate AllBlank(q: seq<seq<Byte>>) {
    forall l :: l in q ==> Blank(l)
  }

  /** One read skips blank lines and stops after the first request: what it leaves
      of the complete lines `q` in the buffer. */
  function Left(q: seq<seq<Byte>>): (rest: seq<seq<Byte>>)
    ensures |rest| <= |q|
  {
    if q == [] then [] else if Blank(q[0]) then Left(q[1..]) else q[1..]
  }

  /** Line `k` holds `b`, neither a newline (10) nor a carriage return (13), and the
      lines before it hold nothing else than those. */
  ghost predicate StopsAt(q: seq<seq<Byte>>, k: nat, b: Byte) {
    && k < |q| && b in q[k] && b != 10 && b != 13
    && forall j, c :: 0 <= j < k && c in q[j] ==> c == 10 || c == 13
  }

  /** That is the request a read stops after: it and the lines before it are taken. */
  lemma {:induction false} FirstRequest(q: seq<seq<Byte>>, k: nat, b: Byte)
    requires StopsAt(q, k, b)
    ensures !AllBlank(q) && Left(q) == q[k + 1..] && Requests(q) >= 1
  {
    assert q[k] in q && !Blank(q[k]);
    if k > 0 {
      var tail := q[1..];
      assert forall j :: 0 <= j < |tail| ==> tail[j] == q[j + 1];
      FirstRequest(tail, k - 1, b);
      assert tail[k..] == q[k + 1..];
    }
  }

  lemma StopsBehind(q: seq<seq<Byte>>)
    requires q != [] && forall c :: c in q[0] ==> c == 10 || c == 13
    ensures forall k: nat, b :: StopsAt(q[1..], k, b) ==> StopsAt(q, k + 1, b)
  {
    var tail := q[1..];
    forall k: nat, b | StopsAt(tail, k, b) ensures StopsAt(q, k + 1, b) {
      forall j, c | 0 <= j < k + 1 && c in q[j] ensures c == 10 || c == 13 {
        assert j == 0 || q[j] == tail[j - 1];
      }
    }
  }

  /** Where there is none, all the lines are taken and none is a request. */
  lemma {:induction false} NoRequest(q: seq<seq<Byte>>)
    requires forall k: nat, b :: !StopsAt(q, k, b)
    ensures AllBlank(q) && Left(q) == [] && Requests(q) == 0
  {
    if q != [] {
      forall b | b in q[0] ensures b == 10 || b == 13 {
        assert !StopsAt(q, 0, b);
      }
      StopsBehind(q);
      NoRequest(q[1..]);
      assert forall l :: l in q ==> l == q[0] || l in q[1..];
    }
  }

  lemma {:induction false} LeftIsRest(q: seq<seq<Byte>>)
    ensures q[..|q| - |Left(q)|] + Left(q) == q
  {
    if q != [] && Blank(q[0]) {
      var tail := q[1..];
      LeftIsRest(tail);
      assert q == [q[0]] + tail;
      assert q[..|q| - |Left(q)|] == [q[0]] + tail[..|tail| - |Left(tail)|];
    }
  }

  lemma {:induction false} LeftSkips(blanks: seq<seq<Byte>>, rest: seq<seq<Byte>>)
    requires AllBlank(blanks)
    ensures Left(blanks + rest) == Left(rest)
  {
    if blanks == [] {
      assert blanks + rest == rest;
    } else {
      assert blanks[0] in blanks && (blanks + rest)[1..] == blanks[1..] + rest;
      LeftSkips(blanks[1..], rest);
    }
  }

  /** No line but the last is a request. */
  predicate LastOnly(q: seq<seq<Byte>>) {
    |q| > 1 ==> Blank(q[0]) && LastOnly(q[1..])
  }

  /** A read leaves no line behind exactly when all it finds but the last are blank. */
  lemma {:induction false} LeftNone(q: seq<seq<Byte>>)
    ensures Left(q) == [] <==> LastOnly(q)
    ensures LastOnly(q) <==> forall k :: 0 <= k < |q| - 1 ==> Blank(q[k])
  {
    if |q| > 1 {
      LeftNone(q[1..]);
      assert forall k :: 1 <= k < |q| - 1 ==> q[k] == q[1..][k - 1];
      assert forall k :: 0 <= k < |q| - 2 ==> q[1..][k] == q[k + 1];
    }
  }

  /** The requests among some lines. */
  function Requests(q: seq<seq<Byte>>): nat {
    if q == [] then 0 else (if Blank(q[0]) then 0 else 1) + Requests(q[1..])
  }

  lemma {:induction false} RequestsAppend(a: seq<seq<Byte>>, b: seq<seq<Byte>>)
    ensures Requests(a + b) == Requests(a) + Requests(b)
  {
    if a == [] {
      assert a + b == b;
    } else {
      assert (a + b)[1..] == a[1..] + b;
      RequestsAppend(a[1..], b);
    }
  }

  /** A read hands over one request, if there is one. */
  lemma {:induction false} LeftOneLess(q: seq<seq<Byte>>)
    ensures Requests(Left(q)) == if Requests(q) == 0 then 0 else Requests(q) - 1
  {
    if q != [] && Blank(q[0]) {
      LeftOneLess(q[1..]);
    }
  }

  // ----- many reads -----

  /** The complete lines in the buffer after `n` reads that end the lines `ended`. */
  function LinesLeft(ended: seq<seq<seq<Byte>>>, n: nat): seq<seq<Byte>>
    requires n <= |ended|
  {
    if n == 0 then [] else Left(LinesLeft(ended, n - 1) + ended[n - 1])
  }

  /** No line is ever left behind by the first `n` reads. */
  predicate KeepsUp(ended: seq<seq<seq<Byte>>>, n: nat)
    requires n <= |ended|
  {
    n > 0 ==> KeepsUp(ended, n - 1) && LinesLeft(ended, n) == []
  }

  lemma BehindOnce(ended: seq<seq<seq<Byte>>>, n: nat)
    requires n < |ended| && KeepsUp(ended, n)
    ensures KeepsUp(ended, n + 1) <==> LastOnly(ended[n])
  {
    assert LinesLeft(ended, n) == [] && [] + ended[n] == ended[n];
    LeftNone(ended[n]);
    assert LinesLeft(ended, n + 1) == Left(ended[n]);
  }

  /** That is so exactly when of the lines each read ends all but the last are
      blank. */
  lemma {:induction false} NeverBehind(ended: seq<seq<seq<Byte>>>, n: nat)
    requires n <= |ended|
    ensures KeepsUp(ended, n) <==> forall i :: 0 <= i < n ==> LastOnly(ended[i])
  {
    if n > 0 {
      NeverBehind(ended, n - 1);
      if KeepsUp(ended, n - 1) {
        BehindOnce(ended, n - 1);
      }
    }
  }

  /** The requests ended by the reads from `j` up to `n`. */
  function Sent(ended: seq<seq<seq<Byte>>>, j: nat, n: nat): nat
    requires j <= n <= |ended|
  {
    if j == n then 0 else Sent(ended, j, n - 1) + Requests(ended[n - 1])
  }

  /** No run of reads up to the `n`th brings more requests than it has reads, by more
      than `m`. */
  predicate Spaced(ended: seq<seq<seq<Byte>>>, n: nat, m: nat)
    requires n <= |ended|
  {
    forall j :: 0 <= j <= n ==> Sent(ended, j, n) <= n - j + m
  }

  lemma SpacedNext(ended: seq<seq<seq<Byte>>>, n: nat, m: nat)
    requires n < |ended|
    ensures var c := Requests(ended[n]);
      Spaced(ended, n + 1, m) <==> c <= m + 1 && Spaced(ended, n, m + 1 - c)
  {
    var c, next := Requests(ended[n]), n + 1;
    forall j | 0 <= j <= n ensures Sent(ended, j, next) == Sent(ended, j, n) + c {
    }
    if c <= m + 1 && Spaced(ended, n, m + 1 - c) {
      forall j | 0 <= j <= next ensures Sent(ended, j, next) <= next - j + m {
        assert j <= n ==> Sent(ended, j, n) <= n - j + (m + 1 - c);
      }
    }
    if Spaced(ended, next, m) {
      assert Sent(ended, n, n) == 0 && Sent(ended, n, next) <= 1 + m;
      forall j | 0 <= j <= n ensures Sent(ended, j, n) <= n - j + (m + 1 - c) {
        assert Sent(ended, j, next) <= next - j + m;
      }
    }
  }

  /** A read hands over one request at most, so after `n` reads at most `m` requests
      wait exactly when they came spaced; with `m` 0, every one has been handed over. */
  lemma {:induction false} RequestsWaiting(ended: seq<seq<seq<Byte>>>, n: nat, m: nat)
    requires n <= |ended|
    ensures Requests(LinesLeft(ended, n)) <= m <==> Spaced(ended, n, m)
  {
    if n > 0 {
      var left, c := LinesLeft(ended, n - 1), Requests(ended[n - 1]);
      RequestsAppend(left, ended[n - 1]);
      LeftOneLess(left + ended[n - 1]);
      SpacedNext(ended, n - 1, m);
      if c <= m + 1 {
        RequestsWaiting(ended, n - 1, m + 1 - c);
      }
    }
  }

  // ----- the incremental reader -----

  /** Lines taken and buffer add up to the stream, and the lines are the first of its
      lines. */
  ghost predicate Aligned(stream: seq<Byte>, lines: seq<seq<Byte>>, buf: seq<Byte>) {
    && Flat(lines) + buf == stream
    && Complete(stream) == lines + Complete(buf)
    && Partial(stream) == Partial(buf)
  }

  /** And of the buffer just the part known to hold no newline has been looked at. */
  ghost predicate Consistent(stream: seq<Byte>, lines: seq<seq<Byte>>, buf: seq<Byte>, scanned: nat, examined: int) {
    && Aligned(stream, lines, buf)
    && scanned <= |buf| && NewlineFree(buf[..scanned])
    && examined == |stream| - |buf| + scanned
  }

  /** Taking the first line off the buffer loses nothing. */
  lemma TakeLine(stream: seq<Byte>, lines: seq<seq<Byte>>, buf: seq<Byte>, nl: nat)
    requires Aligned(stream, lines, buf)
    requires nl < |buf| && nl == NewlineFrom(buf, 0)
    ensures var line, rest := buf[..nl + 1], buf[nl + 1..];
      && Complete(buf) == [line] + Complete(rest)
      && Aligned(stream, lines + [line], rest)
  {
    var line, rest := buf[..nl + 1], buf[nl + 1..];
    FlatSnoc(lines, line);
    Associate(Flat(lines), line, rest);
    assert line + rest == buf;
    Associate(lines, [line], Complete(rest));
  }

  /** New bytes go behind the rest. */
  lemma GrowBuffer(stream: seq<Byte>, lines: seq<seq<Byte>>, buf: seq<Byte>, scanned: nat, examined: nat,
                   chunk: seq<Byte>)
    requires Consistent(stream, lines, buf, scanned, examined)
    ensures Consistent(stream + chunk, lines, buf + chunk, scanned, examined)
  {
    SplitAppend(stream, chunk);
    SplitAppend(buf, chunk);
    Associate(Flat(lines), buf, chunk);
    Associate(lines, Complete(buf), Complete(Partial(buf) + chunk));
    assert (buf + chunk)[..scanned] == buf[..scanned];
  }

  lemma FoundNone(blanks: seq<seq<Byte>>, q: seq<seq<Byte>>)
    requires AllBlank(blanks) && blanks + [] == q
    ensures AllBlank(q) && Left(q) == [] && q[..|q| - |Left(q)|] == blanks
  {
    LeftSkips(blanks, []);
    assert q == blanks;
  }

  /** The line after blank ones is taken too, and the read stops behind it unless it
      is blank itself. */
  lemma FoundLine(before: seq<seq<Byte>>, blanks: seq<seq<Byte>>, line: seq<Byte>, rest: seq<seq<Byte>>,
                  q: seq<seq<Byte>>)
    requires AllBlank(blanks) && blanks + ([line] + rest) == q
    ensures (before + blanks) + [line] == before + (blanks + [line]) && (blanks + [line]) + rest == q
    ensures Blank(line) ==> AllBlank(blanks + [line])
    ensures !Blank(line) ==> !AllBlank(q) && Left(q) == rest && q[..|q| - |Left(q)|] == blanks + [line]
  {
    Associate(blanks, [line], rest);
    Associate(before, blanks, [line]);
    LeftSkips(blanks, [line] + rest);
    assert q[|blanks|] == line;
    if Blank(line) {
      assert forall l :: l in blanks + [line] ==> l in blanks || l == line;
    } else {
      assert ([line] + rest)[1..] == rest;
    }
  }

  /** All the stream's lines are taken exactly when of those found by the read all
      but the last are blank. */
  lemma NothingLeft(all: seq<seq<Byte>>, lines: seq<seq<Byte>>, before: seq<seq<Byte>>, q: seq<seq<Byte>>)
    requires lines == before + q[..|q| - |Left(q)|] && all == lines + Left(q)
    ensures lines == all <==> LastOnly(all[|before|..])
  {
    LeftIsRest(q);
    Associate(before, q[..|q| - |Left(q)|], Left(q));
    assert all[|before|..] == q;
    LeftNone(q);
  }

  /** How one read ends: for more bytes, or refused, with every line found blank; or
      after the first request, which the handler keeps the connection for or not. */
  datatype Verdict = Waiting | TooLong | Served | Dropped

  function VerdictFor(q: seq<seq<Byte>>, partial: nat, kept: bool): Verdict {
    if AllBlank(q) then if partial <= MAX_REQUEST_LEN then Waiting else TooLong
    else if kept then Served
    else Dropped
  }

  /** What a read comes to, told by the bytes of the lines `q` it finds: up to the first
      that holds more than line ends, or all of them. */
  lemma ReadMeans(before: seq<seq<Byte>>, lines: seq<seq<Byte>>, q: seq<seq<Byte>>, partial: nat, kept: bool)
    requires lines == before + q[..|q| - |Left(q)|]
    ensures forall k: nat, b :: StopsAt(q, k, b) ==>
              lines == before + q[..k + 1] && VerdictFor(q, partial, kept) == if kept then Served else Dropped
    ensures (forall k: nat, b :: !StopsAt(q, k, b)) ==>
              && lines == before + q
              && VerdictFor(q, partial, kept) == if partial <= MAX_REQUEST_LEN then Waiting else TooLong
  {
    forall k: nat, b | StopsAt(q, k, b)
      ensures lines == before + q[..k + 1] && VerdictFor(q, partial, kept) == if kept then Served else Dropped
    {
      FirstRequest(q, k, b);
    }
    if forall k: nat, b :: !StopsAt(q, k, b) {
      NoRequest(q);
      assert q[..|q|] == q;
    }
  }

  /** What the socket comes back with. */
  datatype ReadResult = Got(bytes: seq<Byte>) | Eof | WouldBlock | Broken

  class Reader {
    var readBuf: seq<Byte>
    var scanned: nat
    /** Every byte read from the socket so far. */
    ghost var stream: seq<Byte>
    /** Every line taken off the buffer so far. */
    var lines: seq<seq<Byte>>
    /** Bytes the newline search has looked at so far. */
    ghost var examined: nat

    constructor ()
      ensures Valid() && stream == [] && readBuf == [] && lines == [] && examined == 0
    {
      readBuf, scanned, lines := [], 0, [];
      stream, examined := [], 0;
    }

    ghost predicate Valid()
      reads this
    {
      Consistent(stream, lines, readBuf, scanned, examined)
    }

    /** The search for the next newline. The byte it looks at is each time the one
        numbered `examined` in the whole stream, so none is looked at twice. */
    method FindNewline() returns (nl: nat)
      requires scanned <= |readBuf| && NewlineFree(readBuf[..scanned])
      requires |readBuf| <= |stream| && stream[|stream| - |readBuf|..] == readBuf
      requires examined == |stream| - |readBuf| + scanned
      modifies this`examined
      ensures nl == NewlineFrom(readBuf, 0)
      ensures examined == |stream| - |readBuf| + if nl < |readBuf| then nl + 1 else nl
    {
      nl := scanned;
      var found := false;
      while nl < |readBuf| && !found
        invariant scanned <= nl <= |readBuf|
        invariant NewlineFree(readBuf[..nl])
        invariant found ==> nl < |readBuf| && readBuf[nl] == NEWLINE
        invariant examined == |stream| - |readBuf| + nl + if found then 1 else 0
        decreases |readBuf| - nl, !found
      {
        assert examined < |stream| && stream[examined] == readBuf[nl];
        examined := examined + 1;
        if readBuf[nl] == NEWLINE {
          found := true;
        } else {
          nl := nl + 1;
        }
      }
      NewlineUnique(readBuf, nl);
    }

    /** Pull off one line, if a whole one is buffered. */
    method NextLine() returns (found: bool)
      requires Valid()
      modifies this
      ensures Valid() && stream == old(stream)
      ensures found ==> |readBuf| < |old(readBuf)|
      ensures found ==>
                && lines != [] && lines == old(lines) + [lines[|lines| - 1]]
                && Complete(old(readBuf)) == [lines[|lines| - 1]] + Complete(readBuf)
      ensures !found ==> readBuf == old(readBuf) && lines == old(lines) && scanned == |readBuf| && NewlineFree(readBuf)
    {
      assert stream[|stream| - |readBuf|..] == readBuf;
      var nl := FindNewline();
      found := nl < |readBuf|;
      if found {
        Take(nl);
      } else {
        scanned := |readBuf|;
      }
    }

    /** Take the line that ends at `nl`. */
    method Take(nl: nat)
      requires nl < |readBuf| && nl == NewlineFrom(readBuf, 0) && examined == |stream| - |readBuf| + nl + 1
      requires Aligned(stream, lines, readBuf)
      modifies this`lines, this`readBuf, this`scanned
      ensures Valid() && |readBuf| < |old(readBuf)|
      ensures lines != [] && lines == old(lines) + [lines[|lines| - 1]]
      ensures Complete(old(readBuf)) == [lines[|lines| - 1]] + Complete(readBuf)
    {
      TakeLine(stream, lines, readBuf, nl);
      lines, readBuf, scanned := lines + [readBuf[..nl + 1]], readBuf[nl + 1..], 0;
    }

    /** One read of at most `READ_LEN` bytes. `keeps` is the handler's answer to a
        request, given all the lines so far; either answer ends the read, with the
        rest of the buffer not yet looked at. */
    method Feed(chunk: seq<Byte>, keeps: seq<seq<Byte>> -> bool) returns (v: Verdict)
      requires Valid() && 1 <= |chunk| <= READ_LEN
      modifies this
      ensures Valid() && stream == old(stream) + chunk
      ensures var q := Complete(old(readBuf) + chunk);
        && lines == old(lines) + q[..|q| - |Left(q)|]
        && Complete(readBuf) == Left(q)
        && v == VerdictFor(q, |Partial(stream)|, keeps(lines))
        && (AllBlank(q) ==> scanned == |readBuf|)
      ensures var q := Complete(old(readBuf) + chunk);
        && (forall k: nat, b :: StopsAt(q, k, b) ==>
              lines == old(lines) + q[..k + 1] && v == if keeps(lines) then Served else Dropped)
        && ((forall k: nat, b :: !StopsAt(q, k, b)) ==>
              lines == old(lines) + q && v == if |Partial(stream)| <= MAX_REQUEST_LEN then Waiting else TooLong)
      ensures old(lines) <= Complete(stream)
      ensures lines == Complete(stream) <==> LastOnly(Complete(stream)[|old(lines)|..])
    {
      GrowBuffer(stream, lines, readBuf, scanned, examined, chunk);
      readBuf, stream := readBuf + chunk, stream + chunk;
      ghost var q := Complete(readBuf);
      v := HandleLines(keeps);
      NothingLeft(Complete(stream), lines, old(lines), q);
      ReadMeans(old(lines), lines, q, |Partial(stream)|, keeps(lines));
    }

    /** Take lines off the buffer up to the first request. */
    method HandleLines(keeps: seq<seq<Byte>> -> bool) returns (v: Verdict)
      requires Valid()
      modifies this
      ensures Valid() && stream == old(stream)
      ensures var q := Complete(old(readBuf));
        && lines == old(lines) + q[..|q| - |Left(q)|]
        && Complete(readBuf) == Left(q)
        && v == VerdictFor(q, |Partial(stream)|, keeps(lines))
        && (AllBlank(q) ==> scanned == |readBuf|)
    {
      ghost var q := Complete(readBuf);
      ghost var done: seq<seq<Byte>> := [];
      while true
        invariant Valid() && stream == old(stream)
        invariant lines == old(lines) + done && AllBlank(done) && done + Complete(readBuf) == q
        decreases |readBuf|
      {
        var found := NextLine();
        if !found {
          FoundNone(done, q);
          SplitNone(readBuf);
          return if |readBuf| <= MAX_REQUEST_LEN then Waiting else TooLong;
        }
        var line := lines[|lines| - 1];
        FoundLine(old(lines), done, line, Complete(readBuf), q);
        if !Blank(line) {
          return if keeps(lines) then Served else Dropped;
        }
        done := done + [line];
      }
    }

    /** The socket is readable: whether the connection is to be dropped. */
    method HandleReadable(input: ReadResult, keeps: seq<seq<Byte>> -> bool) returns (drop: bool)
      requires Valid() && (input.Got? ==> 1 <= |input.bytes| <= READ_LEN)
      modifies this
      ensures Valid()
      ensures !input.Got? ==> drop == !input.WouldBlock? && stream == old(stream) && lines == old(lines)
      ensures input.Got? ==>
                var q := Complete(old(readBuf) + input.bytes);
                && stream == old(stream) + input.bytes
                && lines == old(lines) + q[..|q| - |Left(q)|]
                && (drop <==> if AllBlank(q) then |Partial(stream)| > MAX_REQUEST_LEN else !keeps(lines))
                && (forall k: nat, b :: StopsAt(q, k, b) ==>
                      lines == old(lines) + q[..k + 1] && (drop <==> !keeps(lines)))
                && ((forall k: nat, b :: !StopsAt(q, k, b)) ==>
                      lines == old(lines) + q && (drop <==> |Partial(stream)| > MAX_REQUEST_LEN))
    {
      match input {
        case Got(bytes) =>
          var v := Feed(bytes, keeps);
          drop := v == TooLong || v == Dropped;
        case Eof => drop := true;
        case WouldBlock => drop := false;
        case Broken => drop := true;
      }
    }
  }

  // ----- whole connections -----

  /** The pieces are what reads can bring. */
  predicate Reads(chunks: seq<seq<Byte>>) {
    forall i :: 0 <= i < |chunks| ==> 1 <= |chunks[i]| <= READ_LEN
  }

  /** The lines that read `i` brings the end of. */
  function Ended(chunks: seq<seq<Byte>>, i: nat): seq<seq<Byte>>
    requires i < |chunks|
  {
    Complete(Partial(Flat(chunks[..i])) + chunks[i])
  }

  function EndedByAll(chunks: seq<seq<Byte>>): (ended: seq<seq<seq<Byte>>>)
    ensures |ended| == |chunks| && forall i :: 0 <= i < |chunks| ==> ended[i] == Ended(chunks, i)
  {
    seq(|chunks|, i requires 0 <= i < |chunks| => Ended(chunks, i))
  }

  /** What the first `n` reads of a connection leave in the buffer. */
  function Behind(chunks: seq<seq<Byte>>, n: nat): seq<seq<Byte>>
    requires n <= |chunks|
  {
    LinesLeft(EndedByAll(chunks), n)
  }

  /** The partial line after the first `n` reads is within the limit. */
  ghost predicate FitsAfter(chunks: seq<seq<Byte>>, n: nat)
    requires n <= |chunks|
  {
    |Partial(Flat(chunks[..n]))| <= MAX_REQUEST_LEN
  }

  /** Read `i` finds no request and leaves a partial line over the limit. */
  ghost predicate RefusedAt(chunks: seq<seq<Byte>>, i: nat)
    requires i < |chunks|
  {
    AllBlank(Behind(chunks, i) + Ended(chunks, i)) && !FitsAfter(chunks, i + 1)
  }

  ghost predicate Refused(chunks: seq<seq<Byte>>) {
    exists i :: 0 <= i < |chunks| && RefusedAt(chunks, i)
  }

  ghost predicate NotYetRefused(chunks: seq<seq<Byte>>, n: nat)
    requires n <= |chunks|
  {
    n > 0 ==> NotYetRefused(chunks, n - 1) && !RefusedAt(chunks, n - 1)
  }

  lemma {:induction false} NotYetMeans(chunks: seq<seq<Byte>>, n: nat)
    requires n <= |chunks|
    ensures NotYetRefused(chunks, n) <==> forall i :: 0 <= i < n ==> !RefusedAt(chunks, i)
  {
    if n > 0 {
      NotYetMeans(chunks, n - 1);
      assert NotYetRefused(chunks, n) <==> NotYetRefused(chunks, n - 1) && !RefusedAt(chunks, n - 1);
    }
  }

  /** What read `i` finds: the lines left so far and those it ends. */
  lemma FoundAt(chunks: seq<seq<Byte>>, i: nat, buf: seq<Byte>)
    requires i < |chunks| && Complete(buf) == Behind(chunks, i) && Partial(buf) == Partial(Flat(chunks[..i]))
    ensures RefusedAt(chunks, i) <==>
              AllBlank(Complete(buf + chunks[i])) && |Partial(Flat(chunks[..i]) + chunks[i])| > MAX_REQUEST_LEN
    ensures Complete(buf + chunks[i]) == Behind(chunks, i) + Ended(chunks, i)
    ensures Behind(chunks, i + 1) == Left(Behind(chunks, i) + Ended(chunks, i))
    ensures Flat(chunks[..i + 1]) == Flat(chunks[..i]) + chunks[i]
  {
    SplitAppend(buf, chunks[i]);
    FlatNext(chunks, i);
  }

  method FeedNext(r: Reader, chunks: seq<seq<Byte>>, i: nat) returns (refused: bool)
    requires Reads(chunks) && i < |chunks|
    requires r.Valid() && r.stream == Flat(chunks[..i]) && Complete(r.readBuf) == Behind(chunks, i)
    modifies r
    ensures r.Valid() && r.stream == Flat(chunks[..i + 1]) && Complete(r.readBuf) == Behind(chunks, i + 1)
    ensures refused <==> RefusedAt(chunks, i)
  {
    FoundAt(chunks, i, r.readBuf);
    var v := r.Feed(chunks[i], _ => true);
    refused := v == TooLong;
  }

  method FeedFirst(chunks: seq<seq<Byte>>, n: nat) returns (r: Reader, kept: bool)
    requires Reads(chunks) && n <= |chunks|
    ensures fresh(r)
    ensures kept <==> NotYetRefused(chunks, n)
    ensures kept ==> r.Valid() && r.stream == Flat(chunks[..n]) && Complete(r.readBuf) == Behind(chunks, n)
  {
    if n == 0 {
      r := new Reader();
      kept := true;
    } else {
      r, kept := FeedFirst(chunks, n - 1);
      if kept {
        var refused := FeedNext(r, chunks, n - 1);
        kept := !refused;
      }
    }
  }

  /** Feed a whole connection to a handler that keeps it. It is answered with "too
      large" exactly when some read finds no request and leaves a partial line over
      the limit; otherwise what has been taken is the lines of the whole stream but
      for those the reads have left behind. */
  method FeedAll(chunks: seq<seq<Byte>>) returns (r: Reader, kept: bool)
    requires Reads(chunks)
    ensures fresh(r)
    ensures kept <==> !Refused(chunks)
    ensures kept ==>
              && r.stream == Flat(chunks) && Complete(r.readBuf) == Behind(chunks, |chunks|)
              && r.lines + Behind(chunks, |chunks|) == Complete(Flat(chunks))
  {
    assert chunks[..|chunks|] == chunks;
    NotYetMeans(chunks, |chunks|);
    r, kept := FeedFirst(chunks, |chunks|);
  }

  /** No line over the limit, no refusal, whatever the chunking. */
  lemma ShortLinesNeverOverflow(chunks: seq<seq<Byte>>)
    requires forall k :: 0 <= k < |Complete(Flat(chunks))| ==> |Complete(Flat(chunks))[k]| <= MAX_REQUEST_LEN + 1
    requires |Partial(Flat(chunks))| <= MAX_REQUEST_LEN
    ensures !Refused(chunks)
  {
    forall k | 0 <= k <= |chunks| ensures FitsAfter(chunks, k) {
      var s, t := Flat(chunks[..k]), Flat(chunks[k..]);
      FlatAppend(chunks[..k], chunks[k..]);
      assert chunks[..k] + chunks[k..] == chunks;
      SplitAppend(s, t);
      SplitIntoLines(s);
      var p := Partial(s);
      var i := NewlineFrom(p + t, 0);
      assert forall j :: 0 <= j < |p| ==> (p + t)[j] == p[j];
      assert i >= |p|;
      if i < |p + t| {
        assert Complete(p + t)[0] == (p + t)[..i + 1];
        assert Complete(s + t)[|Complete(s)|] == Complete(p + t)[0];
      } else {
        assert Partial(s + t) == p + t;
      }
    }
  }

  // ----- one line and the limit -----

  lemma FlatPrefix(chunks: seq<seq<Byte>>, k: nat)
    requires k <= |chunks|
    ensures Flat(chunks[..k]) <= Flat(chunks)
  {
    FlatAppend(chunks[..k], chunks[k..]);
    assert chunks[..k] + chunks[k..] == chunks;
  }

  /** While no newline has come, no line has. */
  lemma {:induction false} NoLineYet(chunks: seq<seq<Byte>>, n: nat)
    requires n <= |chunks| && NewlineFree(Flat(chunks[..n]))
    ensures Behind(chunks, n) == [] && Partial(Flat(chunks[..n])) == Flat(chunks[..n])
    ensures n > 0 ==> Ended(chunks, n - 1) == [] && NewlineFree(Flat(chunks[..n - 1]))
  {
    SplitNone(Flat(chunks[..n]));
    if n > 0 {
      var s, t := Flat(chunks[..n - 1]), chunks[n - 1];
      FlatNext(chunks, n - 1);
      assert forall k :: 0 <= k < |s| ==> s[k] == (s + t)[k];
      NoLineYet(chunks, n - 1);
    }
  }

  /** A single line is refused exactly when some read stops within it, over the limit. */
  lemma OneLine(chunks: seq<seq<Byte>>, body: seq<Byte>)
    requires Reads(chunks) && NewlineFree(body) && Flat(chunks) == body + [NEWLINE]
    ensures Refused(chunks) <==>
              exists k :: 0 <= k <= |chunks| && MAX_REQUEST_LEN < |Flat(chunks[..k])| <= |body|
  {
    forall k | 0 < k <= |chunks| && |Flat(chunks[..k])| <= |body|
      ensures RefusedAt(chunks, k - 1) <==> MAX_REQUEST_LEN < |Flat(chunks[..k])|
    {
      FlatPrefix(chunks, k);
      assert forall i :: 0 <= i < |Flat(chunks[..k])| ==> Flat(chunks[..k])[i] == Flat(chunks)[i] == body[i];
      NoLineYet(chunks, k);
      NoLineYet(chunks, k - 1);
    }
    forall k | 0 < k <= |chunks| && |Flat(chunks[..k])| > |body| ensures !RefusedAt(chunks, k - 1) {
      FlatPrefix(chunks, k);
      assert Flat(chunks[..k]) == body + [NEWLINE];
      SplitHead(body + [NEWLINE], |body|);
      SplitNone([]);
      assert (body + [NEWLINE])[|body| + 1..] == [];
    }
    forall i | 0 <= i < |chunks| && RefusedAt(chunks, i)
      ensures MAX_REQUEST_LEN < |Flat(chunks[..i + 1])| <= |body|
    {
      assert RefusedAt(chunks, (i + 1) - 1);
    }
    if k :| 0 <= k <= |chunks| && MAX_REQUEST_LEN < |Flat(chunks[..k])| <= |body| {
      assert chunks[..0] == [];
      assert k > 0 && RefusedAt(chunks, k - 1);
    }
  }

  /** A line that is over the limit by a whole read or more is refused however it
      is cut. */
  lemma LongLineRefused(chunks: seq<seq<Byte>>, body: seq<Byte>)
    requires Reads(chunks) && NewlineFree(body) && Flat(chunks) == body + [NEWLINE]
    requires |body| >= MAX_REQUEST_LEN + READ_LEN
    ensures Refused(chunks)
  {
    var k := |chunks| - 1;
    FlatNext(chunks, k);
    assert chunks[..k + 1] == chunks;
    OneLine(chunks, body);
    assert MAX_REQUEST_LEN < |Flat(chunks[..k])| <= |body|;
  }

  /** A stream in whole reads. */
  function Blocks(s: seq<Byte>): (chunks: seq<seq<Byte>>)
    ensures Reads(chunks) && Flat(chunks) == s
    decreases |s|
  {
    if s == [] then []
    else
      var n := if |s| <= READ_LEN then |s| else READ_LEN;
      var rest := Blocks(s[n..]);
      assert ([s[..n]] + rest)[1..] == rest && s[..n] + s[n..] == s;
      [s[..n]] + rest
  }

  /** Between the two the cutting decides: the same bytes pass when the newline comes
      with the read that crosses the limit, and are refused when it comes after. */
  lemma OverflowDependsOnChunking(body: seq<Byte>) returns (passed: seq<seq<Byte>>, refused: seq<seq<Byte>>)
    requires NewlineFree(body) && MAX_REQUEST_LEN < |body| < MAX_REQUEST_LEN + READ_LEN
    ensures Reads(passed) && Flat(passed) == body + [NEWLINE] && !Refused(passed)
    ensures Reads(refused) && Flat(refused) == body + [NEWLINE] && Refused(refused)
  {
    var blocks, over := Blocks(body[..MAX_REQUEST_LEN]), body[MAX_REQUEST_LEN..];
    passed, refused := blocks + [over + [NEWLINE]], blocks + [over] + [[NEWLINE]];
    assert body[..MAX_REQUEST_LEN] + over == body;
    FlatSnoc(blocks, over + [NEWLINE]);
    Associate(body[..MAX_REQUEST_LEN], over, [NEWLINE]);
    FlatSnoc(blocks, over);
    FlatSnoc(blocks + [over], [NEWLINE]);
    OneLine(passed, body);
    OneLine(refused, body);
    assert refused[..|blocks| + 1] == blocks + [over];
    assert MAX_REQUEST_LEN < |Flat(refused[..|blocks| + 1])| <= |body|;
    forall k | 0 <= k <= |passed| ensures !(MAX_REQUEST_LEN < |Flat(passed[..k])| <= |body|) {
      if k <= |blocks| {
        assert passed[..k] == blocks[..k];
        FlatPrefix(blocks, k);
      } else {
        assert passed[..k] == passed;
      }
    }
  }
}

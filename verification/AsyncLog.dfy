// The ring buffer of the asynchronous logger, elog/src/elog_async.c: a bounded queue
// of characters, read in chunks or in lines.
module AsyncLog {
  import opened LineCopy
  import Lists
  import Ring

  /** content is what is in the buffer, oldest first; out is read_index. */
  datatype Log = Log(cap: nat, out: nat, content: string)

  predicate LogOk(l: Log) { l.out < l.cap && |l.content| <= l.cap }

  function Min(a: nat, b: nat): nat { if a <= b then a else b }

  // ----- The queue

  /** async_put_log: what does not fit is dropped. */
  function Added(l: Log, text: string): (r: (Log, nat))
    requires LogOk(l)
    ensures LogOk(r.0) && r.1 <= |text|
  {
    var n := Min(|text|, l.cap - |l.content|);
    (l.(content := l.content + text[..n]), n)
  }

  function Taken(l: Log, n: nat): (r: Log)
    requires LogOk(l) && n <= |l.content|
    ensures LogOk(r)
  {
    Log(l.cap, Ring.Wrap(l.out + n, l.cap), l.content[n..])
  }

  /** elog_async_get_log: how many characters are read. */
  function GetLen(l: Log, size: nat): (n: nat)
    ensures n <= |l.content|
  {
    Min(size, |l.content|)
  }

  /** elog_async_get_line_log: how many characters are read.  A line in two parts is looked for in each part. */
  function LineLen(l: Log, size: nat, nl: string): (n: nat)
    requires LogOk(l)
    ensures n <= |l.content|
  {
    var n, rest := Min(size, |l.content|), l.cap - l.out;
    if n < rest then CopyLen(l.content[..n], nl, 0)
    else
      var k := CopyLen(l.content[..rest], nl, 0);
      if k == rest then rest + CopyLen(l.content[rest..n], nl, 0) else k
  }

  /** A put takes the whole text, or as much as fills the buffer; a chunk read takes what it asks for, or all there is.
      */
  lemma PutGetIs(l: Log, text: string, size: nat)
    requires LogOk(l)
    ensures var (l', n) := Added(l, text);
            && n <= |text| && (n == |text| || |l'.content| == l.cap)
            && l' == Log(l.cap, l.out, l.content + text[..n])
    ensures var n := GetLen(l, size);
            && n <= size && (n == size || n == |l.content|)
            && Taken(l, n).content == l.content[n..] && Taken(l, n).cap == l.cap
            && Taken(l, n).out == if l.out + n < l.cap then l.out + n else l.out + n - l.cap
  {
  }

  lemma Bounded(pool: string, at: nat, text: string)
    requires Reads(pool, at, text)
    ensures at < |pool| && |text| <= |pool|
  {
  }

  lemma LineLenMin(l: Log, size: nat, nl: string)
    requires LogOk(l)
    ensures LineLen(l, size, nl) == LineLen(l, Min(size, |l.content|), nl)
    ensures size == 0 || l.content == [] ==> LineLen(l, size, nl) == 0
  {
  }

  /** A line read of a one-character newline sign: it reads something when it can; it ends in a newline or reads
      all that fits; and it contains no other newline, except at the physical end of the buffer. */
  lemma LineIs(l: Log, size: nat, c: char)
    requires LogOk(l)
    ensures var n := LineLen(l, size, [c]);
            && (size > 0 && l.content != [] ==> n > 0)
            && n <= size
            && (n == Min(size, |l.content|) || l.content[n - 1] == c)
            && forall i :: 0 <= i < n - 1 && l.content[i] == c ==> l.out + i + 1 == l.cap
  {
    hide CopyLen, EndsLine;
    var n, rest := Min(size, |l.content|), l.cap - l.out;
    if n < rest {
      OneChar(l.content[..n], c);
    } else {
      OneChar(l.content[..rest], c);
      var second := l.content[rest..n];
      OneChar(second, c);
      forall i | 0 <= i < |second| ensures l.content[rest + i] == second[i] {}
    }
  }

  /** An inner newline is read exactly when the read goes beyond the physical end of the buffer and the first newline
      is the last character in front of it. */
  lemma InnerNewlineIff(l: Log, size: nat, c: char)
    requires LogOk(l)
    ensures var n, rest := LineLen(l, size, [c]), l.cap - l.out;
            (exists i :: 0 <= i < n - 1 && l.content[i] == c) <==>
              rest < Min(size, |l.content|) && l.content[rest - 1] == c && c !in l.content[..rest - 1]
  {
    hide CopyLen, EndsLine;
    var m, n, rest := Min(size, |l.content|), LineLen(l, size, [c]), l.cap - l.out;
    LineIs(l, size, c);
    if rest < m {
      var first, k := l.content[..rest], CopyLen(l.content[..rest], [c], 0);
      OneChar(first, c);
      OneChar(l.content[rest..m], c);
      if c in l.content[..rest - 1] {
        var i :| 0 <= i < rest - 1 && l.content[i] == c;
        assert first[i] == c;
        assert n == k <= rest - 1;
      } else if l.content[rest - 1] == c {
        assert n > rest;
      }
    }
  }

  /** One character goes in and out again, then a newline and a letter: they lie on both sides of the end of the buffer,
      and are read as one line. */
  lemma InnerNewlineExample()
    ensures var l := Run(Log(2, 0, []), [DoPut("x"), DoGet(1), DoPut("\na")], "\n");
            l == Log(2, 1, "\na") && LineLen(l, 2, "\n") == 2
  {
    var ops := [DoPut("x"), DoGet(1), DoPut("\na")];
    var l1, l2, l := Log(2, 0, "x"), Log(2, 1, []), Log(2, 1, "\na");
    assert [] + "x" == "x" && "x"[1..] == [] && [] + "\na" == "\na";
    assert Step(Log(2, 0, []), ops[0], "\n") == l1 && Step(l1, ops[1], "\n") == l2 && Step(l2, ops[2], "\n") == l;
    assert ops[1..][1..][1..] == [];
    assert Run(l2, ops[1..][1..], "\n") == l;
    assert Run(l1, ops[1..], "\n") == l;
    InnerNewlineIff(l, 2, '\n');
    LineIs(l, 2, '\n');
  }

  lemma EndsOne(s: string, c: char, k: nat)
    requires k <= |s|
    ensures EndsLine(s, [c], k) <==> k > 0 && s[k - 1] == c
  {
    if k > 0 { assert s[k - 1..k] == [s[k - 1]]; }
  }

  lemma OneChar(s: string, c: char)
    ensures var n := CopyLen(s, [c], 0);
            && (forall i :: 0 <= i < n - 1 ==> s[i] != c)
            && (n == |s| || (n > 0 && s[n - 1] == c))
            && (s != [] ==> n > 0)
  {
    hide EndsLine, CopyLen;
    CopyLenIs(s, [c], 0);
    var n := CopyLen(s, [c], 0);
    EndsOne(s, c, n);
    forall i | 0 <= i && i + 1 < n ensures s[i] != c { EndsOne(s, c, i + 1); }
  }

  // ----- Whole runs

  datatype Op = DoPut(text: string) | DoGet(size: nat) | DoLine(size: nat)

  function ReadLen(l: Log, op: Op, nl: string): (n: nat)
    requires LogOk(l)
    ensures n <= |l.content|
  {
    match op
    case DoPut(_) => 0
    case DoGet(size) => GetLen(l, size)
    case DoLine(size) => LineLen(l, size, nl)
  }

  function Accepted(l: Log, op: Op): string
    requires LogOk(l)
  {
    if op.DoPut? then op.text[..Added(l, op.text).1] else []
  }

  function Step(l: Log, op: Op, nl: string): (l': Log)
    requires LogOk(l)
    ensures LogOk(l')
  {
    if op.DoPut? then Added(l, op.text).0 else Taken(l, ReadLen(l, op, nl))
  }

  function Run(l: Log, ops: seq<Op>, nl: string): (l': Log)
    requires LogOk(l)
    ensures LogOk(l')
    decreases |ops|
  {
    if ops == [] then l else Run(Step(l, ops[0], nl), ops[1..], nl)
  }

  /** Everything read, and everything accepted. */
  function ReadIn(l: Log, ops: seq<Op>, nl: string): string
    requires LogOk(l)
    decreases |ops|
  {
    if ops == [] then [] else l.content[..ReadLen(l, ops[0], nl)] + ReadIn(Step(l, ops[0], nl), ops[1..], nl)
  }

  function AcceptedIn(l: Log, ops: seq<Op>, nl: string): string
    requires LogOk(l)
    decreases |ops|
  {
    if ops == [] then [] else Accepted(l, ops[0]) + AcceptedIn(Step(l, ops[0], nl), ops[1..], nl)
  }

  /** What is read and then still there is what was there and then accepted, in order. */
  lemma {:induction false} FifoRun(l: Log, ops: seq<Op>, nl: string)
    requires LogOk(l)
    ensures ReadIn(l, ops, nl) + Run(l, ops, nl).content == l.content + AcceptedIn(l, ops, nl)
    decreases |ops|
  {
    if ops != [] {
      var l1 := Step(l, ops[0], nl);
      FifoRun(l1, ops[1..], nl);
      Lists.InOrder(l.content[..ReadLen(l, ops[0], nl)], l1.content, l.content, Accepted(l, ops[0]),
                  ReadIn(l1, ops[1..], nl), Run(l1, ops[1..], nl).content, AcceptedIn(l1, ops[1..], nl));
    }
  }

  /** The polling loop of the output thread: line reads until one reads nothing. */
  function Drain(l: Log, size: nat, nl: string): (Log, string)
    requires LogOk(l)
    decreases |l.content|
  {
    var n := LineLen(l, size, nl);
    if n == 0 then (l, [])
    else
      var (l', text) := Drain(Taken(l, n), size, nl);
      (l', l.content[..n] + text)
  }

  /** The loop ends, and has read the exact content. */
  lemma {:induction false} DrainIs(l: Log, size: nat, c: char)
    requires LogOk(l) && size > 0
    ensures Drain(l, size, [c]).0.content == [] && Drain(l, size, [c]).1 == l.content
    decreases |l.content|
  {
    LineIs(l, size, c);
    var n := LineLen(l, size, [c]);
    if n > 0 {
      DrainIs(Taken(l, n), size, c);
      assert l.content[..n] + l.content[n..] == l.content;
    }
  }

  // ----- Characters in the ring

  /** The text is what the ring holds from position at on, in one piece or two. */
  ghost predicate Reads(pool: string, at: nat, text: string) {
    && at < |pool| && |text| <= |pool|
    && (forall i :: 0 <= i < |text| && at + i < |pool| ==> text[i] == pool[at + i])
    && (forall i :: 0 <= i < |text| && at + i >= |pool| ==> text[i] == pool[at + i - |pool|])
  }

  lemma Stretch(pool: string, out: nat, content: string, n: nat)
    requires Reads(pool, out, content) && n <= |content|
    ensures out + n < |pool| ==> content[..n] == pool[out..out + n]
    ensures out + n >= |pool| ==>
        content[..|pool| - out] == pool[out..] && content[|pool| - out..n] == pool[..n - (|pool| - out)]
  {
    if out + n >= |pool| {
      forall i | 0 <= i < n - (|pool| - out) ensures content[|pool| - out..n][i] == pool[i] {
        assert content[|pool| - out + i] == pool[i];
      }
    }
  }

  lemma Rest(pool: string, out: nat, content: string, n: nat)
    requires Reads(pool, out, content) && n <= |content|
    ensures Reads(pool, Ring.Wrap(out + n, |pool|), content[n..])
  {
    var at, rest := Ring.Wrap(out + n, |pool|), content[n..];
    forall i | 0 <= i < |rest|
      ensures rest[i] == if at + i < |pool| then pool[at + i] else pool[at + i - |pool|]
    {
      assert rest[i] == content[n + i];
    }
  }

  /** Text written behind the content, in one piece or two. */
  lemma Written(pool: string, pool': string, out: nat, content: string, text: string)
    requires Reads(pool, out, content) && |content| < |pool| == |pool'| && |content| + |text| <= |pool|
    requires Wrapped(pool, pool', Ring.Wrap(out + |content|, |pool|), text)
    ensures Reads(pool', out, content + text)
  {
    var w, all := Ring.Wrap(out + |content|, |pool|), content + text;
    forall i | 0 <= i < |all|
      ensures all[i] == if out + i < |pool| then pool'[out + i] else pool'[out + i - |pool|]
    {
      if i < |content| {
        assert all[i] == content[i];
      } else {
        assert all[i] == text[i - |content|];
      }
    }
  }

  /** text has been written from w on, round the end of the buffer. */
  ghost predicate Wrapped(pool: string, pool': string, w: nat, text: string) {
    && w < |pool| == |pool'| && |text| <= |pool|
    && forall i :: 0 <= i < |pool| ==>
         pool'[i] == if w <= i < w + |text| then text[i - w]
                     else if i < w + |text| - |pool| then text[i + |pool| - w]
                     else pool[i]
  }

  lemma FirstPart(log: string, content: string, part: nat, n: nat, tail: string)
    requires n <= part <= |content| && log == content[..part][..n] + tail
    ensures n <= |log| && log[..n] == content[..n]
  {
  }

  lemma SecondPart(log: string, line: string, content: string, part: nat, size: nat, m: nat, tail: string)
    requires part + m <= size <= |content| && line == content[..part]
    requires log == line + content[part..size][..m] + tail
    ensures part + m <= |log| && log[..part + m] == content[..part + m]
  {
    assert content[..part + m] == content[..part] + content[part..size][..m];
  }

  // ----- The code

  /** elog_async_get_buf_used. */
  function Used(w: nat, r: nat, isFull: bool, isEmpty: bool, size: nat): nat
    requires w <= size && r <= size
  {
    if w > r then w - r
    else if !isFull && !isEmpty then size - (r - w)
    else if isFull then size
    else 0
  }

  /** An empty text put into an empty buffer clears the empty flag: the buffer then looks full. */
  lemma LooksFull(w: nat, size: nat)
    requires w < size
    ensures Used(w, w, false, true, size) == 0 && Used(w, w, false, false, size) == size
  {
  }

  class Buffer {
    const logBuf: array<char>
    var writeIndex: nat
    var readIndex: nat
    var isFull: bool
    var isEmpty: bool
    ghost var content: string

    ghost function View(): Log
      reads this
    {
      Log(logBuf.Length, readIndex, content)
    }

    /** Equal indices mean exactly one of full and empty, and the flags say which. */
    ghost predicate Valid()
      reads this, logBuf
    {
      && logBuf.Length > 0 && Reads(logBuf[..], readIndex, content)
      && writeIndex == Ring.Wrap(readIndex + |content|, logBuf.Length)
      && (isFull <==> |content| == logBuf.Length) && (isEmpty <==> content == [])
    }

    constructor (size: nat)
      requires size > 0
      ensures Valid() && fresh(logBuf) && View() == Log(size, 0, [])
    {
      logBuf := new char[size];
      writeIndex, readIndex, isFull, isEmpty, content := 0, 0, false, true, [];
    }

    method GetUsed() returns (n: nat)
      requires Valid()
      ensures n == |content| && n == Used(writeIndex, readIndex, isFull, isEmpty, logBuf.Length)
      ensures writeIndex == readIndex ==> isFull != isEmpty
    {
      if writeIndex > readIndex { return writeIndex - readIndex; }
      if !isFull && !isEmpty { return logBuf.Length - (readIndex - writeIndex); }
      n := if isFull then logBuf.Length else 0;
    }

    /** The copies of async_put_log. */
    method Write(log: array<char>, size: nat)
      requires size <= log.Length && log != logBuf && logBuf.Length > 0 && Reads(logBuf[..], readIndex, content)
      requires writeIndex == Ring.Wrap(readIndex + |content|, logBuf.Length) && |content| + size <= logBuf.Length
      requires |content| < logBuf.Length
      modifies this`writeIndex, logBuf
      ensures Reads(logBuf[..], readIndex, content + log[..size])
      ensures writeIndex == Ring.Wrap(readIndex + |content| + size, logBuf.Length)
    {
      hide Reads;
      Bounded(logBuf[..], readIndex, content);
      ghost var pool, w := logBuf[..], writeIndex;
      if writeIndex + size < logBuf.Length {
        Memcpy(logBuf, writeIndex, log, 0, size);
        writeIndex := writeIndex + size;
      } else {
        var part := logBuf.Length - writeIndex;
        Memcpy(logBuf, writeIndex, log, 0, part);
        Memcpy(logBuf, 0, log, part, size - part);
        writeIndex := writeIndex + size - logBuf.Length;
      }
      assert Wrapped(pool, logBuf[..], w, log[..size]);
      Written(pool, logBuf[..], readIndex, content, log[..size]);
    }

    /** The copies of elog_async_get_log. */
    method Read(log: array<char>, size: nat)
      requires size <= log.Length && log != logBuf && Reads(logBuf[..], readIndex, content) && size <= |content|
      modifies this`readIndex, log
      ensures Reads(logBuf[..], readIndex, content[size..])
          && readIndex == Ring.Wrap(old(readIndex) + size, logBuf.Length)
      ensures log[..size] == content[..size]
    {
      Stretch(logBuf[..], readIndex, content, size);
      Rest(logBuf[..], readIndex, content, size);
      if readIndex + size < logBuf.Length {
        Memcpy(log, 0, logBuf, readIndex, size);
        readIndex := readIndex + size;
      } else {
        var part := logBuf.Length - readIndex;
        Memcpy(log, 0, logBuf, readIndex, part);
        Memcpy(log, part, logBuf, 0, size - part);
        readIndex := readIndex + size - logBuf.Length;
      }
    }

    /** The copies of elog_async_get_line_log. */
    method ReadLine(log: array<char>, size: nat, nl: string) returns (n: nat)
      requires size <= log.Length && log != logBuf && Reads(logBuf[..], readIndex, content) && size <= |content|
      modifies this`readIndex, log
      ensures n == LineLen(old(View()), size, nl) && n <= size && log[..n] == content[..n]
      ensures Reads(logBuf[..], readIndex, content[n..]) && readIndex == Ring.Wrap(old(readIndex) + n, logBuf.Length)
    {
      hide CopyLen, EndsLine, Reads;
      Bounded(logBuf[..], readIndex, content);
      Stretch(logBuf[..], readIndex, content, size);
      ghost var pool, out := logBuf[..], readIndex;
      if readIndex + size < logBuf.Length {
        n := Cpyln(log, 0, logBuf, readIndex, size, nl);
        readIndex := readIndex + n;
      } else {
        n := ReadParts(log, size, logBuf.Length - readIndex, nl);
        readIndex := if readIndex + n < logBuf.Length then readIndex + n else readIndex + n - logBuf.Length;
      }
      Rest(pool, out, content, n);
    }

    /** A line that may run over the end of the buffer. */
    method ReadParts(log: array<char>, size: nat, part: nat, nl: string) returns (n: nat)
      requires size <= log.Length && log != logBuf && readIndex + part == logBuf.Length && part <= size
      requires size <= |content| <= logBuf.Length
      requires content[..part] == logBuf[readIndex..readIndex + part]
      requires content[part..size] == logBuf[0..0 + (size - part)]
      modifies log
      ensures var k := CopyLen(content[..part], nl, 0);
              n == if k == part then part + CopyLen(content[part..size], nl, 0) else k
      ensures n <= size && log[..n] == content[..n]
    {
      hide CopyLen, EndsLine;
      n := Cpyln(log, 0, logBuf, readIndex, part, nl);
      FirstPart(log[..], content, part, n, old(log[n..]));
      if n == part {
        ghost var line := log[..part];
        var m := Cpyln(log, part, logBuf, 0, size - part, nl);
        SecondPart(log[..], line, content, part, size, m, old(log[part + m..]));
        n := part + m;
      }
    }

    /** async_put_log.  The buffer stays well formed exactly unless nothing is put into an empty buffer. */
    method Put(log: array<char>, size0: nat) returns (size: nat)
      requires Valid() && size0 <= log.Length && log != logBuf
      modifies this, logBuf
      ensures (View(), size) == Added(old(View()), log[..size0])
      ensures Valid() <==> size0 > 0 || old(content) != []
    {
      size := size0;
      var used := GetUsed();
      var space := logBuf.Length - used;
      if space == 0 {
        assert content + log[..size0][..0] == content;
        return 0;
      }
      if space <= size {
        size := space;
        isFull := true;
      }
      Write(log, size);
      assert log[..size0][..size] == log[..size];
      content := content + log[..size];
      isEmpty := false;
    }

    /** elog_async_get_log. */
    method Get(log: array<char>, size0: nat) returns (size: nat)
      requires Valid() && size0 <= log.Length && log != logBuf
      modifies this, log
      ensures Valid() && size == GetLen(old(View()), size0) && View() == Taken(old(View()), size)
      ensures size <= size0 && log[..size] == old(content)[..size]
    {
      size := size0;
      var used := GetUsed();
      if used == 0 || size == 0 {
        assert content[0..] == content;
        return 0;
      }
      if used <= size {
        size := used;
        isEmpty := true;
      }
      Read(log, size);
      content := content[size..];
      isFull := false;
    }

    /** elog_async_get_line_log. */
    method GetLine(log: array<char>, size0: nat, nl: string) returns (n: nat)
      requires Valid() && size0 <= log.Length && log != logBuf
      modifies this`readIndex, this`isFull, this`isEmpty, this`content, log
      ensures Valid() && n == LineLen(old(View()), size0, nl) && View() == Taken(old(View()), n)
      ensures n <= size0 && log[..n] == old(content)[..n]
    {
      hide LineLen, Reads;
      Bounded(logBuf[..], readIndex, content);
      LineLenMin(View(), size0, nl);
      var size := size0;
      var used := GetUsed();
      n := 0;
      if used == 0 || size == 0 {
        assert content[0..] == content;
        return;
      }
      if used <= size { size := used; }
      n := ReadLine(log, size, nl);
      if used == n { isEmpty := true; }
      if n != 0 { isFull := false; }
      content := content[n..];
    }
  }
}

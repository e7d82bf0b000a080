// The buffered output mode of the logger, elog/src/elog_buf.c.
module BufLog {
  import opened LineCopy

  /** One call of elog_port_output. */
  datatype Out = Full(text: string) | Direct(text: string) | Flushed(text: string)

  /** buffered is log_buf up to buf_write_size; port is what has been output. */
  datatype Log = Log(cap: nat, enabled: bool, buffered: string, port: seq<Out>)

  predicate LogOk(l: Log) { l.cap > 0 && |l.buffered| <= l.cap }

  function Flat(port: seq<Out>): string
  {
    if port == [] then [] else Flat(port[..|port| - 1]) + port[|port| - 1].text
  }

  // ----- Filling the buffer

  /** One round of the loop. */
  function Round(l: Log, text: string): (l': Log)
    requires LogOk(l) && |l.buffered| + |text| > l.cap
    ensures LogOk(l')
  {
    l.(buffered := [], port := l.port + [Full(l.buffered + text[..l.cap - |l.buffered|])])
  }

  /** The loop of elog_buf_output.  A round may copy nothing: then the buffer was full, and is empty after it. */
  function Fill(l: Log, text: string): (l': Log)
    requires LogOk(l)
    ensures LogOk(l') && l'.cap == l.cap && l'.enabled == l.enabled
    decreases |text|, |l.buffered|
  {
    if |l.buffered| + |text| > l.cap then Fill(Round(l, text), text[l.cap - |l.buffered|..])
    else l.(buffered := l.buffered + text)
  }

  /** elog_buf_output. */
  function Output(l: Log, text: string): (l': Log)
    requires LogOk(l)
    ensures LogOk(l')
  {
    if l.enabled then Fill(l, text) else l.(port := l.port + [Direct(text)])
  }

  /** elog_flush. */
  function Flush(l: Log): (l': Log)
    requires LogOk(l)
    ensures LogOk(l')
  {
    l.(buffered := [], port := l.port + [Flushed(l.buffered)])
  }

  /** Output followed by what is buffered. */
  function All(l: Log): string { Flat(l.port) + l.buffered }

  lemma FlatOne(port: seq<Out>, o: Out)
    ensures Flat(port + [o]) == Flat(port) + o.text
  {
    assert (port + [o])[..|port|] == port;
  }

  lemma RoundIs(l: Log, text: string)
    requires LogOk(l) && |l.buffered| + |text| > l.cap
    ensures All(Round(l, text)) + text[l.cap - |l.buffered|..] == All(l) + text
  {
    var room := l.cap - |l.buffered|;
    FlatOne(l.port, Full(l.buffered + text[..room]));
    Regroup(Flat(l.port), l.buffered, text, room);
  }

  lemma Regroup(a: string, b: string, text: string, room: nat)
    requires room <= |text|
    ensures (a + (b + text[..room])) + [] + text[room..] == (a + b) + text
  {
    assert text == text[..room] + text[room..];
    assert (a + (b + text[..room])) + [] == (a + b) + text[..room];
    assert ((a + b) + text[..room]) + text[room..] == (a + b) + (text[..room] + text[room..]);
  }

  /** Nothing is lost, doubled or reordered. */
  lemma {:induction false} FillKeepsAll(l: Log, text: string)
    requires LogOk(l)
    ensures All(Fill(l, text)) == All(l) + text
    decreases |text|, |l.buffered|
  {
    hide All;
    if |l.buffered| + |text| > l.cap {
      RoundIs(l, text);
      FillKeepsAll(Round(l, text), text[l.cap - |l.buffered|..]);
    } else {
      LastPart(l, text);
    }
  }

  lemma LastPart(l: Log, text: string)
    ensures All(l.(buffered := l.buffered + text)) == All(l) + text
  {
    assert Flat(l.port) + (l.buffered + text) == (Flat(l.port) + l.buffered) + text;
  }

  /** The new outputs are exactly full buffers, and the end of the text is always buffered. */
  lemma {:induction false} FillIs(l: Log, text: string)
    requires LogOk(l)
    ensures var l' := Fill(l, text);
            && |l'.port| >= |l.port| && (forall i :: 0 <= i < |l.port| ==> l'.port[i] == l.port[i])
            && (forall i :: |l.port| <= i < |l'.port| ==> l'.port[i].Full? && |l'.port[i].text| == l.cap)
            && (text != [] ==> l'.buffered != [])
    decreases |text|, |l.buffered|
  {
    if |l.buffered| + |text| > l.cap {
      var l1 := Round(l, text);
      assert forall i :: 0 <= i < |l.port| ==> l1.port[i] == l.port[i];
      FillIs(l1, text[l.cap - |l.buffered|..]);
    }
  }

  lemma FlushIs(l: Log)
    requires LogOk(l)
    ensures All(Flush(l)) == All(l) && Flush(l).buffered == []
    ensures |Flush(l).port| == |l.port| + 1 && Flush(l).port[..|l.port|] == l.port
  {
    FlatOne(l.port, Flushed(l.buffered));
  }

  /** The order of all possible texts is kept exactly when the mode is enabled or the buffer is empty: switching
      the mode off does not flush the buffer, and later texts overtake what is in it. */
  lemma KeepsOrderIff(l: Log)
    requires LogOk(l)
    ensures (forall text :: All(Output(l, text)) == All(l) + text) <==> l.enabled || l.buffered == []
  {
    if l.enabled {
      forall text ensures All(Output(l, text)) == All(l) + text { FillKeepsAll(l, text); }
    } else if l.buffered == [] {
      forall text ensures All(Output(l, text)) == All(l) + text { FlatOne(l.port, Direct(text)); }
    } else {
      var c := if l.buffered[0] == 'a' then 'b' else 'a';
      FlatOne(l.port, Direct([c]));
      assert All(Output(l, [c]))[|Flat(l.port)|] == c;
      assert (All(l) + [c])[|Flat(l.port)|] == l.buffered[0];
    }
  }

  /** The mode is switched off while there is something in the buffer, and the next text overtakes it. */
  lemma OvertakenExample()
    ensures var l := Run(Log(4, false, [], []), [DoEnable(true), DoOutput("ab"), DoEnable(false), DoOutput("c")]);
            l.port == [Direct("c")] && l.buffered == "ab" && All(l) == "cab"
  {
    var ops := [DoEnable(true), DoOutput("ab"), DoEnable(false), DoOutput("c")];
    var l0 := Log(4, false, [], []);
    var l1, l2 := l0.(enabled := true), l0.(enabled := true, buffered := "ab");
    assert Step(l1, DoOutput("ab")) == l2 by { assert [] + "ab" == "ab"; }
    var l3 := Step(l2.(enabled := false), DoOutput("c"));
    assert Run(l3, ops[1..][1..][1..][1..]) == l3;
    assert Run(l2.(enabled := false), ops[1..][1..][1..]) == l3;
    assert Run(l2, ops[1..][1..]) == l3;
    assert Run(l1, ops[1..]) == l3;
    assert l3.port == [Direct("c")];
    FlatOne([], Direct("c"));
    assert [] + [Direct("c")] == [Direct("c")];
  }

  // ----- Whole runs

  datatype Op = DoOutput(text: string) | DoFlush | DoEnable(on: bool)

  function Step(l: Log, op: Op): (l': Log)
    requires LogOk(l)
    ensures LogOk(l')
  {
    match op
    case DoOutput(text) => Output(l, text)
    case DoFlush => Flush(l)
    case DoEnable(on) => l.(enabled := on)
  }

  function Run(l: Log, ops: seq<Op>): (l': Log)
    requires LogOk(l)
    ensures LogOk(l')
    decreases |ops|
  {
    if ops == [] then l else Run(Step(l, ops[0]), ops[1..])
  }

  function Logged(ops: seq<Op>): string
    decreases |ops|
  {
    if ops == [] then [] else (if ops[0].DoOutput? then ops[0].text else []) + Logged(ops[1..])
  }

  /** The mode is only switched off behind a flush. */
  predicate OffAfterFlush(l: Log, ops: seq<Op>)
    requires LogOk(l)
    decreases |ops|
  {
    ops != [] ==> (ops[0] == DoEnable(false) ==> l.buffered == []) && OffAfterFlush(Step(l, ops[0]), ops[1..])
  }

  /** Bytes output followed by bytes buffered are all bytes logged, in order, over every such run. */
  lemma {:induction false} RunIs(l: Log, ops: seq<Op>)
    requires LogOk(l) && (l.enabled || l.buffered == []) && OffAfterFlush(l, ops)
    ensures All(Run(l, ops)) == All(l) + Logged(ops)
    decreases |ops|
  {
    if ops != [] {
      var l1 := Step(l, ops[0]);
      match ops[0] {
        case DoOutput(text) => KeepsOrderIff(l); assert All(l1) == All(l) + text;
        case DoFlush => FlushIs(l);
        case DoEnable(on) =>
      }
      RunIs(l1, ops[1..]);
      var t := if ops[0].DoOutput? then ops[0].text else [];
      assert All(l1) == All(l) + t;
      assert (All(l) + t) + Logged(ops[1..]) == All(l) + (t + Logged(ops[1..]));
    }
  }

  lemma FillStep(l: Log, text: string)
    requires LogOk(l)
    ensures Fill(l, text) == if |l.buffered| + |text| > l.cap then Fill(Round(l, text), text[l.cap - |l.buffered|..])
                             else l.(buffered := l.buffered + text)
  {
  }

  lemma Pieces(log: string, size: nat, index: nat, n: nat)
    requires index + n <= size <= |log|
    ensures log[..size][index..][..n] == log[index..index + n]
    ensures log[..size][index..][n..] == log[..size][index + n..]
    ensures index + n == size ==> log[..size][index..] == log[index..index + n]
  {
  }

  // ----- The code

  class Buffer {
    const logBuf: array<char>
    var writeSize: nat        // buf_write_size
    var enabled: bool
    var port: seq<Out>        // the calls of elog_port_output

    ghost function View(): Log
      requires writeSize <= logBuf.Length
      reads this, logBuf
    {
      Log(logBuf.Length, enabled, logBuf[..writeSize], port)
    }

    ghost predicate Valid()
      reads this, logBuf
    {
      writeSize <= logBuf.Length && logBuf.Length > 0
    }

    constructor (size: nat)
      requires size > 0
      ensures Valid() && fresh(logBuf) && View() == Log(size, false, [], [])
    {
      logBuf := new char[size];
      writeSize, enabled, port := 0, false, [];
    }

    /** memcpy(log_buf + buf_write_size, log + index, n), and the new buf_write_size. */
    method Copy(log: array<char>, index: nat, n: nat)
      requires Valid() && writeSize + n <= logBuf.Length && index + n <= log.Length && log != logBuf
      modifies this`writeSize, logBuf
      ensures Valid() && View() == old(View()).(buffered := old(View()).buffered + log[..][index..index + n])
    {
      ghost var before := logBuf[..writeSize];
      Memcpy(logBuf, writeSize, log, index, n);
      assert logBuf[..writeSize] == before;
      assert logBuf[writeSize..writeSize + n] == log[..][index..index + n];
      writeSize := writeSize + n;
      assert logBuf[..writeSize] == before + log[..][index..index + n];
    }

    /** elog_buf_output. */
    method Output(log: array<char>, size0: nat)
      requires Valid() && size0 <= log.Length && log != logBuf
      modifies this`writeSize, this`port, logBuf
      ensures Valid() && View() == Step(old(View()), DoOutput(log[..size0]))
    {
      var size, index := size0, 0;
      if !enabled {
        port := port + [Direct(log[..size])];
        return;
      }
      hide Fill;
      ghost var done := Fill(View(), log[..size0]);
      while true
        invariant Valid() && 0 <= index && 0 <= size && index + size == size0 && log[..] == old(log[..]) && enabled
        invariant Fill(View(), log[..size0][index..]) == done
        decreases size, writeSize
      {
        FillStep(View(), log[..size0][index..]);
        if writeSize + size > logBuf.Length {
          var n := logBuf.Length - writeSize;
          Pieces(log[..], size0, index, n);
          Copy(log, index, n);
          index := index + n;
          size := size - n;
          port := port + [Full(logBuf[..writeSize])];
          writeSize := 0;
        } else {
          Pieces(log[..], size0, index, size);
          Copy(log, index, size);
          break;
        }
      }
    }

    /** elog_flush. */
    method Flush()
      requires Valid()
      modifies this`writeSize, this`port
      ensures Valid() && View() == Step(old(View()), DoFlush)
    {
      port := port + [Flushed(logBuf[..writeSize])];
      writeSize := 0;
    }

    /** elog_buf_enabled. */
    method Enable(on: bool)
      requires Valid()
      modifies this`enabled
      ensures Valid() && View() == Step(old(View()), DoEnable(on))
    {
      enabled := on;
    }
  }
}

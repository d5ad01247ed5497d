/**
 * The run state the native layer keeps between calls: the text ngspice has
 * printed, the vector names of the current analysis, the flat sample buffer
 * and the stride flag, together with the callbacks ngspice invokes and the
 * JNI entry points `initNgspice`, `runAnalysis`, `takeSamples`,
 * `getComplexStride` and `getVecNames`. The process-wide globals become the
 * fields of one `NgspiceSession` object; the engine itself is not modelled,
 * its return codes and the callbacks it makes arrive as inputs.
 */
module Session {
  import opened Text
  import Deck

  /** One value of one vector at one sample point, as ngspice reports it (`creal`, `cimag`). */
  datatype Complex = Complex(re: real, im: real)

  /** Slots per vector in a row: 1 when only real parts are kept, 2 for real then imaginary. */
  function Stride(complex: bool): nat {
    if complex then 2 else 1
  }

  /** Component `c` of a value: 0 is the real part, 1 the imaginary part. */
  function Component(z: Complex, c: nat): real
    requires c < 2
  {
    if c == 0 then z.re else z.im
  }

  /** The slots one value occupies in the buffer under the given stride policy. */
  function Slots(z: Complex, complex: bool): seq<real> {
    if complex then [z.re, z.im] else [z.re]
  }

  /** The slots `sendData` pushes for one row of values, in vector order. */
  function RowSamples(values: seq<Complex>, complex: bool): (r: seq<real>)
    ensures |r| == if complex then 2 * |values| else |values|
  {
    if values == [] then []
    else RowSamples(values[..|values| - 1], complex) + Slots(values[|values| - 1], complex)
  }

  /** One `sendData` call as it was stored: the values and the stride policy in force. */
  datatype Row = Row(values: seq<Complex>, complex: bool)

  /** The sample buffer that a sequence of stored rows produces, oldest row first. */
  function FlattenRows(rows: seq<Row>): seq<real> {
    if rows == [] then []
    else FlattenRows(rows[..|rows| - 1]) + RowSamples(rows[|rows| - 1].values, rows[|rows| - 1].complex)
  }

  /** Pushing the slots of value `i` extends the row's samples over the first `i` values to the first `i + 1`. */
  lemma RowSamplesSnoc(values: seq<Complex>, i: nat, complex: bool)
    requires i < |values|
    ensures RowSamples(values[..i + 1], complex) == RowSamples(values[..i], complex) + Slots(values[i], complex)
  {
    assert values[..i + 1][..i] == values[..i];
  }

  /** Storing one more row appends its samples to the buffer. */
  lemma FlattenRowsSnoc(rows: seq<Row>, row: Row)
    ensures FlattenRows(rows + [row]) == FlattenRows(rows) + RowSamples(row.values, row.complex)
  {
    assert (rows + [row])[..|rows|] == rows;
  }

  /**
   * The push loops of `sendData`: the real part of each value in vector
   * order, or its real and imaginary parts interleaved, appended to `buf`.
   */
  method PushRow(buf: seq<real>, values: seq<Complex>, complex: bool) returns (r: seq<real>)
    ensures r == buf + RowSamples(values, complex)
  {
    r := buf;
    var n := |values|;
    if !complex {
      for i := 0 to n
        invariant r == buf + RowSamples(values[..i], false)
      {
        RowSamplesSnoc(values, i, false);
        r := r + [values[i].re];
      }
    } else {
      for i := 0 to n
        invariant r == buf + RowSamples(values[..i], true)
      {
        RowSamplesSnoc(values, i, true);
        r := r + [values[i].re];
        r := r + [values[i].im];
      }
    }
    assert values[..n] == values;
  }

  /** Every row has `n` values and was stored under the same policy. */
  predicate Uniform(rows: seq<Row>, n: nat, complex: bool) {
    forall s :: 0 <= s < |rows| ==> |rows[s].values| == n && rows[s].complex == complex
  }

  /** Within one row, vector `v`'s component `c` sits at `v*stride + c`. */
  lemma {:induction false} RowLayout(values: seq<Complex>, complex: bool, v: nat, c: nat)
    requires v < |values| && c < Stride(complex)
    ensures v * Stride(complex) + c < |RowSamples(values, complex)|
    ensures RowSamples(values, complex)[v * Stride(complex) + c] == Component(values[v], c)
    decreases |values|
  {
    var last := |values| - 1;
    var init := values[..last];
    var prefix := RowSamples(init, complex);
    assert RowSamples(values, complex) == prefix + Slots(values[last], complex);
    if v < last {
      RowLayout(init, complex, v, c);
      assert init[v] == values[v];
    } else {
      assert |prefix| == v * Stride(complex);
    }
  }

  lemma UniformPrefix(rows: seq<Row>, n: nat, complex: bool)
    requires rows != [] && Uniform(rows, n, complex)
    ensures Uniform(rows[..|rows| - 1], n, complex)
  {
    var init := rows[..|rows| - 1];
    forall s | 0 <= s < |init| ensures |init[s].values| == n && init[s].complex == complex {
      assert init[s] == rows[s];
    }
  }

  lemma MulSucc(a: nat, w: nat)
    ensures (a + 1) * w == a * w + w
  {
  }

  /** Uniform rows of `n` values fill exactly `rows * n * stride` slots. */
  lemma {:induction false} FlattenRowsLength(rows: seq<Row>, n: nat, complex: bool)
    requires Uniform(rows, n, complex)
    ensures |FlattenRows(rows)| == |rows| * (n * Stride(complex))
    decreases |rows|
  {
    if rows != [] {
      var init := rows[..|rows| - 1];
      UniformPrefix(rows, n, complex);
      FlattenRowsLength(init, n, complex);
      MulSucc(|init|, n * Stride(complex));
    }
  }

  /**
   * The row-major layout of the sample buffer: with `n` vectors per row, the
   * value of sample `s`, vector `v`, component `c` is at `s*n*stride + v*stride + c`.
   */
  lemma {:induction false} SampleLayout(rows: seq<Row>, n: nat, complex: bool, s: nat, v: nat, c: nat)
    requires Uniform(rows, n, complex)
    requires s < |rows| && v < n && c < Stride(complex)
    ensures s * n * Stride(complex) + v * Stride(complex) + c < |FlattenRows(rows)|
    ensures FlattenRows(rows)[s * n * Stride(complex) + v * Stride(complex) + c] == Component(rows[s].values[v], c)
    decreases |rows|
  {
    var k := Stride(complex);
    var last := |rows| - 1;
    var init := rows[..last];
    UniformPrefix(rows, n, complex);
    FlattenRowsLength(init, n, complex);
    var prefix := FlattenRows(init);
    FlattenRowsLast(rows);
    SlotOffset(s, n, k, v, c);
    if s < last {
      SampleLayout(init, n, complex, s, v, c);
      assert init[s] == rows[s];
      EarlierRow(s, last, n * k, v * k + c);
    } else {
      RowLayout(rows[last].values, complex, v, c);
    }
  }

  /** The buffer of a non-empty row sequence is that of all rows but the last, then the last row's samples. */
  lemma FlattenRowsLast(rows: seq<Row>)
    requires rows != []
    ensures FlattenRows(rows) == FlattenRows(rows[..|rows| - 1]) + RowSamples(rows[|rows| - 1].values, rows[|rows| - 1].complex)
  {
  }

  lemma SlotOffset(s: nat, n: nat, k: nat, v: nat, c: nat)
    requires v < n && c < k
    ensures s * n * k + v * k + c == s * (n * k) + (v * k + c)
    ensures v * k + c < n * k
  {
    assert v * k + k <= n * k by {
      MulSucc(v, k);
      MulMono(v + 1, n, k);
    }
  }

  lemma MulMono(a: nat, b: nat, w: nat)
    requires a <= b
    ensures a * w <= b * w
  {
  }

  lemma EarlierRow(s: nat, last: nat, w: nat, o: nat)
    requires s < last && o < w
    ensures s * w + o < last * w
  {
    MulSucc(s, w);
    MulMono(s + 1, last, w);
  }

  /** The output text after `appendOutput(s)` for a non-null `s`: `s` appended, then a newline if the text does not end in one. */
  function Appended(out: string, s: string): (r: string)
    ensures r == out + s || r == out + s + [Deck.LF]
    ensures r == [] || r[|r| - 1] == Deck.LF
  {
    var t := out + s;
    if t != [] && t[|t| - 1] != Deck.LF then t + [Deck.LF] else t
  }

  /** Output text as the session keeps it: empty, or ending in a newline. */
  predicate Terminated(out: string) {
    out == [] || out[|out| - 1] == Deck.LF
  }

  /** Appending a message that already ends in a newline adds exactly that message. */
  lemma AppendedTerminated(out: string, s: string)
    requires |s| > 0 && s[|s| - 1] == Deck.LF
    ensures Appended(out, s) == out + s
  {
    var t := out + s;
    assert t[|t| - 1] == s[|s| - 1];
  }

  /** Appending a message without a trailing newline adds the message and one newline. */
  lemma AppendedUnterminated(out: string, s: string)
    requires |s| > 0 && s[|s| - 1] != Deck.LF
    ensures Appended(out, s) == out + s + [Deck.LF]
  {
    var t := out + s;
    assert t[|t| - 1] == s[|s| - 1];
  }

  const EXIT_BANNER: string := "\n[ngspice controlledExit]\n"

  /** The second line `controlledExit` prints, before `appendOutput` terminates it. */
  function ExitStatusLine(status: int): string {
    "[ngspice exited with status " + DecimalString(status) + "]"
  }

  /** What `controlledExit` leaves in the output: the banner, then the status line and a newline. */
  function ExitOutput(out: string, status: int): string {
    Appended(Appended(out, EXIT_BANNER), ExitStatusLine(status))
  }

  /** `controlledExit` adds the banner and the status line verbatim, each ending in a newline, and the status reads back. */
  lemma ExitOutputText(out: string, status: int)
    ensures ExitOutput(out, status) == out + EXIT_BANNER + ExitStatusLine(status) + [Deck.LF]
    ensures IsDecimal(DecimalString(status)) && ParseDecimal(DecimalString(status)) == status
  {
    AppendedTerminated(out, EXIT_BANNER);
    var line := ExitStatusLine(status);
    assert line[|line| - 1] == ']';
    AppendedUnterminated(out + EXIT_BANNER, line);
    DecimalRoundTrip(status);
  }

  const NOT_INITIALIZED: string := "ERROR: ngspice not initialized\n"
  const INITIALIZED: string := "ngspice initialized.\n"

  /** The reply `initNgspice` gives when `ngSpice_Init` returns the nonzero code `ret`. */
  function InitFailed(ret: int): string {
    "ERROR: ngSpice_Init failed, ret=" + DecimalString(ret) + "\n"
  }

  /** The failure reply carries the return code, which can be read back from it. */
  lemma InitFailedCarriesCode(ret: int)
    ensures InitFailed(ret) != INITIALIZED
    ensures InitFailed(ret)[..32] == "ERROR: ngSpice_Init failed, ret="
    ensures InitFailed(ret)[32..|InitFailed(ret)| - 1] == DecimalString(ret)
    ensures ParseDecimal(InitFailed(ret)[32..|InitFailed(ret)| - 1]) == ret
  {
    var m := InitFailed(ret);
    assert m[0] == 'E' && INITIALIZED[0] == 'n';
    assert m[32..|m| - 1] == DecimalString(ret);
    DecimalRoundTrip(ret);
  }

  /** A callback ngspice may make while it runs one of its entry points. */
  datatype Callback =
    | SendChar(msg: Option<string>)
    | SendStat(msg: Option<string>)
    | ControlledExit(status: int)
    | SendInitData(names: seq<string>)
    | SendData(values: seq<Complex>)
    | BgThreadRunning(running: bool)

  /**
   * What the engine does during one `runAnalysis`: the callbacks it makes while
   * running `destroy all` and `reset`, the code `ngSpice_Circ` returns and the
   * callbacks made while loading, and those made while running the analysis command.
   */
  datatype EngineRun = EngineRun(
    duringReset: seq<Callback>,
    circRc: int,
    duringLoad: seq<Callback>,
    duringCommand: seq<Callback>)

  /** The process-wide globals at one moment, as plain values; `rows` is the stored row history. */
  datatype Globals = Globals(
    initialized: bool,
    hasLoadedCircuit: bool,
    output: string,
    vecNames: seq<string>,
    vecCount: int,
    samples: seq<real>,
    storeComplex: bool,
    bgRunning: bool,
    rows: seq<Row>)

  /** The buffer is the row-major flattening of the stored rows, the count matches the names, the text is terminated. */
  predicate Consistent(g: Globals) {
    g.samples == FlattenRows(g.rows) && g.vecCount == |g.vecNames| && Terminated(g.output)
  }

  /** The text after `appendOutput(s)`, where `None` is a null pointer. */
  function AppendText(out: string, s: Option<string>): string {
    if s.None? then out else Appended(out, s.value)
  }

  /** What one callback's handler does to the globals. */
  function Step(g: Globals, cb: Callback): Globals {
    match cb
    case SendChar(msg) => g.(output := AppendText(g.output, msg))
    case SendStat(msg) => g.(output := AppendText(g.output, msg))
    case ControlledExit(status) => g.(output := ExitOutput(g.output, status), initialized := false)
    case SendInitData(names) => g.(vecNames := names, vecCount := |names|, samples := [], rows := [])
    case SendData(values) =>
      g.(samples := g.samples + RowSamples(values, g.storeComplex),
         rows := g.rows + [Row(values, g.storeComplex)])
    case BgThreadRunning(running) => g.(bgRunning := running)
  }

  /** What a sequence of callbacks does, delivered in order. */
  function Steps(g: Globals, cbs: seq<Callback>): Globals {
    if cbs == [] then g else Step(Steps(g, cbs[..|cbs| - 1]), cbs[|cbs| - 1])
  }

  /** The text alone: what the printing callbacks (`sendChar`, `sendStat`, `controlledExit`) leave after `out`. */
  function Printed(out: string, cbs: seq<Callback>): string {
    if cbs == [] then out
    else
      var before := Printed(out, cbs[..|cbs| - 1]);
      match cbs[|cbs| - 1]
      case SendChar(msg) => AppendText(before, msg)
      case SendStat(msg) => AppendText(before, msg)
      case ControlledExit(status) => ExitOutput(before, status)
      case _ => before
  }

  /** Every handler keeps the globals consistent. */
  lemma StepConsistent(g: Globals, cb: Callback)
    requires Consistent(g)
    ensures Consistent(Step(g, cb))
  {
    if cb.SendData? {
      FlattenRowsSnoc(g.rows, Row(cb.values, g.storeComplex));
    }
  }

  lemma {:induction false} StepsConsistent(g: Globals, cbs: seq<Callback>)
    requires Consistent(g)
    ensures Consistent(Steps(g, cbs))
    decreases |cbs|
  {
    if cbs != [] {
      StepsConsistent(g, cbs[..|cbs| - 1]);
      StepConsistent(Steps(g, cbs[..|cbs| - 1]), cbs[|cbs| - 1]);
    }
  }

  /**
   * No callback loads a circuit or changes the stride policy, and none
   * initializes the engine (`controlledExit` only ever clears the flag).
   */
  lemma {:induction false} StepsKeepFlags(g: Globals, cbs: seq<Callback>)
    ensures Steps(g, cbs).hasLoadedCircuit == g.hasLoadedCircuit
    ensures Steps(g, cbs).storeComplex == g.storeComplex
    ensures Steps(g, cbs).initialized ==> g.initialized
    decreases |cbs|
  {
    if cbs != [] {
      StepsKeepFlags(g, cbs[..|cbs| - 1]);
    }
  }

  /** The text after the callbacks depends on the text before and on what they print, and on nothing else. */
  lemma {:induction false} StepsOutput(g: Globals, cbs: seq<Callback>)
    ensures Steps(g, cbs).output == Printed(g.output, cbs)
    decreases |cbs|
  {
    if cbs != [] {
      StepsOutput(g, cbs[..|cbs| - 1]);
    }
  }

  /** Text is only ever added: the text before the callbacks is a prefix of the text after. */
  lemma {:induction false} PrintedExtends(out: string, cbs: seq<Callback>)
    ensures out <= Printed(out, cbs)
    decreases |cbs|
  {
    if cbs != [] {
      PrintedExtends(out, cbs[..|cbs| - 1]);
      var before := Printed(out, cbs[..|cbs| - 1]);
      match cbs[|cbs| - 1]
      case ControlledExit(status) =>
        ExitOutputText(before, status);
      case _ =>
    }
  }

  /** Printing two batches of callbacks one after the other is printing them together. */
  lemma {:induction false} PrintedAppend(out: string, a: seq<Callback>, b: seq<Callback>)
    ensures Printed(out, a + b) == Printed(Printed(out, a), b)
    decreases |b|
  {
    if b == [] {
      assert a + b == a;
    } else {
      var last := |b| - 1;
      assert (a + b)[..|a + b| - 1] == a + b[..last];
      PrintedAppend(out, a, b[..last]);
    }
  }

  /** The globals after `initNgspice` when `ngSpice_Init` returns `ret` after making the callbacks `during`. */
  function InitGlobals(g: Globals, ret: int, during: seq<Callback>): Globals {
    if g.initialized then g
    else
      var started := Steps(g.(output := []), during);
      if ret != 0 then started
      else started.(initialized := true, hasLoadedCircuit := false, bgRunning := false)
  }

  /**
   * A first successful `initNgspice` initializes the session with no circuit
   * loaded and no background run; the text is what the engine printed while
   * starting, and a failed start leaves the session uninitialized. Once
   * initialized, the call changes nothing.
   */
  lemma InitOutcome(g: Globals, ret: int, during: seq<Callback>)
    ensures InitGlobals(g, ret, during).initialized == (g.initialized || ret == 0)
    ensures g.initialized ==> InitGlobals(g, ret, during) == g
    ensures !g.initialized ==> InitGlobals(g, ret, during).output == Printed([], during)
    ensures !g.initialized && ret == 0 ==>
      !InitGlobals(g, ret, during).hasLoadedCircuit && !InitGlobals(g, ret, during).bgRunning
    ensures InitGlobals(g, ret, during).storeComplex == g.storeComplex
    ensures Consistent(g) ==> Consistent(InitGlobals(g, ret, during))
  {
    var cleared := g.(output := []);
    StepsKeepFlags(cleared, during);
    StepsOutput(cleared, during);
    if Consistent(g) {
      StepsConsistent(cleared, during);
    }
  }

  /** The state `runAnalysis` starts the deck from: cleared text, and a cleaned engine once a circuit was loaded. */
  function CleanGlobals(g: Globals, engine: EngineRun): Globals {
    var cleared := g.(output := []);
    if g.hasLoadedCircuit then Steps(cleared, engine.duringReset).(output := []) else cleared
  }

  /** The globals after `runAnalysis` on an initialized session. */
  function AnalysisGlobals(g: Globals, cmd: string, engine: EngineRun): Globals {
    var start := CleanGlobals(g, engine).(storeComplex := Deck.IsAcCommand(cmd));
    var afterLoad := Steps(start, engine.duringLoad);
    if engine.circRc != 0 then afterLoad
    else Steps(afterLoad.(hasLoadedCircuit := true, bgRunning := false), engine.duringCommand)
  }

  /**
   * The reply of `runAnalysis` holds exactly what the engine printed while
   * loading the deck and, when the deck loaded, while running the command:
   * nothing printed before the call or during the clean-up survives.
   */
  lemma AnalysisReply(g: Globals, cmd: string, engine: EngineRun)
    ensures AnalysisGlobals(g, cmd, engine).output ==
      Printed([], engine.duringLoad + (if engine.circRc == 0 then engine.duringCommand else []))
  {
    var start := CleanGlobals(g, engine).(storeComplex := Deck.IsAcCommand(cmd));
    var afterLoad := Steps(start, engine.duringLoad);
    StepsOutput(start, engine.duringLoad);
    if engine.circRc == 0 {
      StepsOutput(afterLoad.(hasLoadedCircuit := true, bgRunning := false), engine.duringCommand);
      PrintedAppend([], engine.duringLoad, engine.duringCommand);
    } else {
      assert engine.duringLoad + [] == engine.duringLoad;
    }
  }

  /** The stride policy follows the command, and a circuit counts as loaded once a deck has loaded. */
  lemma AnalysisFlags(g: Globals, cmd: string, engine: EngineRun)
    ensures AnalysisGlobals(g, cmd, engine).storeComplex == Deck.IsAcCommand(cmd)
    ensures AnalysisGlobals(g, cmd, engine).hasLoadedCircuit == (g.hasLoadedCircuit || engine.circRc == 0)
  {
    var cleared := g.(output := []);
    StepsKeepFlags(cleared, engine.duringReset);
    var start := CleanGlobals(g, engine).(storeComplex := Deck.IsAcCommand(cmd));
    StepsKeepFlags(start, engine.duringLoad);
    var afterLoad := Steps(start, engine.duringLoad);
    StepsKeepFlags(afterLoad.(hasLoadedCircuit := true, bgRunning := false), engine.duringCommand);
  }

  /** `runAnalysis` keeps the globals consistent. */
  lemma AnalysisConsistent(g: Globals, cmd: string, engine: EngineRun)
    requires Consistent(g)
    ensures Consistent(AnalysisGlobals(g, cmd, engine))
  {
    var cleared := g.(output := []);
    StepsConsistent(cleared, engine.duringReset);
    var start := CleanGlobals(g, engine).(storeComplex := Deck.IsAcCommand(cmd));
    StepsConsistent(start, engine.duringLoad);
    var afterLoad := Steps(start, engine.duringLoad);
    StepsConsistent(afterLoad.(hasLoadedCircuit := true, bgRunning := false), engine.duringCommand);
  }

  class NgspiceSession {
    var initialized: bool
    var hasLoadedCircuit: bool
    var output: string
    var vecNames: seq<string>
    var vecCount: int
    var samples: seq<real>
    var storeComplex: bool
    var bgRunning: bool
    /** The rows `sendData` stored since the buffer was last emptied. */
    ghost var rows: seq<Row>

    /** The fields as one value. */
    ghost function Snapshot(): Globals
      reads this
    {
      Globals(initialized, hasLoadedCircuit, output, vecNames, vecCount, samples, storeComplex, bgRunning, rows)
    }

    ghost predicate Valid()
      reads this
    {
      Consistent(Snapshot())
    }

    /** The state of a freshly loaded library: nothing initialized, every buffer empty, real stride. */
    constructor ()
      ensures Valid()
      ensures Snapshot() == Globals(false, false, [], [], 0, [], false, false, [])
    {
      initialized := false;
      hasLoadedCircuit := false;
      output := [];
      vecNames := [];
      vecCount := 0;
      samples := [];
      storeComplex := false;
      bgRunning := false;
      rows := [];
    }

    /** `clearOutput` */
    method ClearOutput()
      requires Valid()
      modifies this
      ensures Valid()
      ensures Snapshot() == old(Snapshot()).(output := [])
    {
      output := [];
    }

    /** `appendOutput`: a null message changes nothing; otherwise the message is appended and the text kept newline-terminated. */
    method AppendOutput(s: Option<string>)
      requires Valid()
      modifies this
      ensures Valid()
      ensures Snapshot() == old(Snapshot()).(output := AppendText(old(output), s))
    {
      if s.None? {
        return;
      }
      output := Appended(output, s.value);
    }

    /** `takeOutputSnapshot` */
    method TakeOutputSnapshot() returns (out: string)
      requires Valid()
      ensures out == output
      ensures Terminated(out)
    {
      out := output;
    }

    /** `controlledExit`: prints the banner and the status, and marks the engine as no longer initialized. */
    method OnControlledExit(status: int)
      requires Valid()
      modifies this
      ensures Valid()
      ensures Snapshot() == old(Snapshot()).(output := ExitOutput(old(output), status), initialized := false)
    {
      AppendOutput(Some(EXIT_BANNER));
      var s := ExitStatusLine(status);
      AppendOutput(Some(s));
      initialized := false;
    }

    /** `sendInitData`: the announced vector names, in order, replace the old ones, and the sample buffer is emptied. */
    method OnSendInitData(names: seq<string>)
      requires Valid()
      modifies this
      ensures Valid()
      ensures Snapshot() == old(Snapshot()).(vecNames := names, vecCount := |names|, samples := [], rows := [])
    {
      vecNames := [];
      samples := [];
      rows := [];
      vecCount := |names|;
      var i := 0;
      while i < vecCount
        invariant 0 <= i <= vecCount == |names|
        invariant vecNames == names[..i]
        invariant samples == [] && rows == [] && output == old(output)
        invariant initialized == old(initialized) && hasLoadedCircuit == old(hasLoadedCircuit)
        invariant storeComplex == old(storeComplex) && bgRunning == old(bgRunning)
      {
        vecNames := vecNames + [names[i]];
        i := i + 1;
      }
    }

    /**
     * `sendData`: appends one row, the real part of each value in vector order,
     * or its real and imaginary parts interleaved when the complex flag is set.
     * Earlier entries are untouched.
     */
    method OnSendData(values: seq<Complex>)
      requires Valid()
      modifies this
      ensures Valid()
      ensures Snapshot() == old(Snapshot()).(
        samples := old(samples) + RowSamples(values, storeComplex),
        rows := old(rows) + [Row(values, storeComplex)])
    {
      StepConsistent(Snapshot(), SendData(values));
      var buf := PushRow(samples, values, storeComplex);
      samples := buf;
      rows := rows + [Row(values, storeComplex)];
    }

    /** `bgThreadRunning` */
    method OnBgThreadRunning(running: bool)
      requires Valid()
      modifies this
      ensures Valid()
      ensures Snapshot() == old(Snapshot()).(bgRunning := running)
    {
      bgRunning := running;
    }

    /** Delivers one callback to its handler (`sendChar` and `sendStat` both append their message). */
    method Dispatch(cb: Callback)
      requires Valid()
      modifies this
      ensures Valid()
      ensures Snapshot() == Step(old(Snapshot()), cb)
    {
      ghost var g := Snapshot();
      match cb
      case SendChar(msg) =>
        assert Step(g, cb) == g.(output := AppendText(g.output, msg));
        AppendOutput(msg);
      case SendStat(msg) =>
        assert Step(g, cb) == g.(output := AppendText(g.output, msg));
        AppendOutput(msg);
      case ControlledExit(status) =>
        assert Step(g, cb) == g.(output := ExitOutput(g.output, status), initialized := false);
        OnControlledExit(status);
      case SendInitData(names) =>
        assert Step(g, cb) == g.(vecNames := names, vecCount := |names|, samples := [], rows := []);
        OnSendInitData(names);
      case SendData(values) =>
        assert Step(g, cb) == g.(samples := g.samples + RowSamples(values, g.storeComplex),
                                 rows := g.rows + [Row(values, g.storeComplex)]);
        OnSendData(values);
      case BgThreadRunning(running) =>
        assert Step(g, cb) == g.(bgRunning := running);
        OnBgThreadRunning(running);
    }

    /** The callbacks the engine makes during one of its calls, in order. */
    method Replay(cbs: seq<Callback>)
      requires Valid()
      modifies this
      ensures Valid()
      ensures Snapshot() == Steps(old(Snapshot()), cbs)
    {
      for i := 0 to |cbs|
        invariant Valid()
        invariant Snapshot() == Steps(old(Snapshot()), cbs[..i])
      {
        assert cbs[..i + 1][..i] == cbs[..i];
        Dispatch(cbs[i]);
      }
      assert cbs[..|cbs|] == cbs;
    }

    /**
     * `initNgspice`: when not yet initialized, clears the output and calls
     * `ngSpice_Init`, which returns `ret` after making the callbacks `during`;
     * a nonzero code is reported with its value and leaves the session
     * uninitialized. Otherwise, and whenever the session was already
     * initialized, the reply is `ngspice initialized.`.
     */
    method InitNgspice(ret: int, during: seq<Callback>) returns (reply: string)
      requires Valid()
      modifies this
      ensures Valid()
      ensures Snapshot() == InitGlobals(old(Snapshot()), ret, during)
      ensures reply == (if old(initialized) || ret == 0 then INITIALIZED else InitFailed(ret))
      ensures initialized == (old(initialized) || ret == 0)
      ensures !old(initialized) ==> output == Printed([], during)
    {
      InitOutcome(Snapshot(), ret, during);
      if !initialized {
        ClearOutput();
        Replay(during);
        if ret != 0 {
          reply := InitFailed(ret);
          return;
        }
        initialized := true;
        hasLoadedCircuit := false;
        bgRunning := false;
      }
      reply := INITIALIZED;
    }

    /** `getComplexStride`: 2 exactly when complex values are being stored, otherwise 1. */
    method GetComplexStride() returns (stride: int)
      ensures stride == Stride(storeComplex)
    {
      stride := if storeComplex then 2 else 1;
    }

    /** `getVecNames`: the names announced by the last `sendInitData`, in order. */
    method GetVecNames() returns (names: seq<string>)
      ensures names == vecNames
    {
      names := vecNames;
    }

    /** `takeSamples`: hands over every accumulated sample and leaves the buffer empty. */
    method TakeSamples() returns (taken: seq<real>)
      requires Valid()
      modifies this
      ensures Valid()
      ensures taken == old(samples) && taken == FlattenRows(old(rows))
      ensures Snapshot() == old(Snapshot()).(samples := [], rows := [])
    {
      var tmp: seq<real> := [];
      tmp, samples := samples, tmp;
      rows := [];
      taken := tmp;
    }

    /**
     * `runAnalysis`: refuses to run before initialization, changing nothing;
     * otherwise starts from an empty output (cleaning the engine first once a
     * circuit has been loaded), sets the stride policy from the command, hands
     * the deck built from the netlist to `ngSpice_Circ`, and runs the command
     * only when the deck loaded. The reply is the output collected along the
     * way; `loaded` is the deck handed to the engine.
     */
    method RunAnalysis(netlist: string, cmd: string, engine: EngineRun) returns (reply: string, loaded: seq<Deck.DeckEntry>)
      requires Valid()
      modifies this
      ensures Valid()
      ensures !old(initialized) ==> reply == NOT_INITIALIZED && loaded == [] && Snapshot() == old(Snapshot())
      ensures old(initialized) ==> Snapshot() == AnalysisGlobals(old(Snapshot()), cmd, engine)
      ensures old(initialized) ==> loaded == Deck.DeckOf(netlist)
      ensures old(initialized) ==> reply == output
      ensures old(initialized) ==>
        reply == Printed([], engine.duringLoad + (if engine.circRc == 0 then engine.duringCommand else []))
      ensures old(initialized) ==> storeComplex == Deck.IsAcCommand(cmd)
      ensures old(initialized) ==> hasLoadedCircuit == (old(hasLoadedCircuit) || engine.circRc == 0)
    {
      if !initialized {
        reply := NOT_INITIALIZED;
        loaded := [];
        return;
      }
      AnalysisReply(Snapshot(), cmd, engine);
      AnalysisFlags(Snapshot(), cmd, engine);
      reply, loaded := Analyse(netlist, cmd, engine);
    }

    /** The start of `runAnalysis`: an empty output, after `destroy all` and `reset` once a circuit has been loaded. */
    method CleanStart(engine: EngineRun)
      requires Valid()
      modifies this
      ensures Valid()
      ensures Snapshot() == CleanGlobals(old(Snapshot()), engine)
    {
      ClearOutput();
      if hasLoadedCircuit {
        Replay(engine.duringReset);
        ClearOutput();
      }
    }

    /** Sets the stride policy from the command, builds the deck and hands it to `ngSpice_Circ`. */
    method LoadDeck(netlist: string, cmd: string, engine: EngineRun) returns (loaded: seq<Deck.DeckEntry>)
      requires Valid()
      modifies this
      ensures Valid()
      ensures Snapshot() == Steps(old(Snapshot()).(storeComplex := Deck.IsAcCommand(cmd)), engine.duringLoad)
      ensures loaded == Deck.DeckOf(netlist)
    {
      storeComplex := Deck.AnalysisRequiresComplex(cmd);
      loaded := Deck.BuildDeck(netlist);
      Replay(engine.duringLoad);
    }

    /** The part of `runAnalysis` after the initialization check. */
    method Analyse(netlist: string, cmd: string, engine: EngineRun) returns (reply: string, loaded: seq<Deck.DeckEntry>)
      requires Valid()
      modifies this
      ensures Valid()
      ensures Snapshot() == AnalysisGlobals(old(Snapshot()), cmd, engine)
      ensures loaded == Deck.DeckOf(netlist) && reply == output
    {
      CleanStart(engine);
      loaded := LoadDeck(netlist, cmd, engine);
      var rc := engine.circRc;
      if rc == 0 {
        hasLoadedCircuit := true;
      }
      if rc != 0 {
        reply := TakeOutputSnapshot();
        return;
      }
      bgRunning := false;
      Replay(engine.duringCommand);
      reply := TakeOutputSnapshot();
    }
  }
}

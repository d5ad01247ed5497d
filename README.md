# DroidSpice native deck builder, run state and plot data, in Dafny

DroidSpice runs the ngspice circuit simulator on Android. This project models two parts of it.

The native layer, `native-lib.cpp`:
- It normalises a netlist typed on a phone into a strict deck for `ngSpice_Circ`. It strips one trailing CR, turns UTF-8 no-break spaces into spaces, trims trailing blanks, drops blank lines, terminates every line with `\n` and adds `.end` when missing.
- It decides from the analysis command whether results are complex (stride 2) or real (stride 1).
- It keeps the state that ngspice's callbacks fill in: the printed output text, the vector names, and a flat row-major sample buffer.
- It exposes JNI entry points that initialise the engine, run an analysis and drain the results.

The Kotlin chart builders, `PlotUtils.kt`:
- They choose which samples become chart entries: strictly positive frequencies, mapped through `log10`, and non-negative times.
- They choose the SI unit of an axis label.

Modules:
- `Text`: optional values, and the decimal rendering of integers shared by `std::to_string` and Kotlin's `Int.toString()`, with its read-back round trip.
- `Deck`: `normalizeLine`, `lineContainsDotEnd`, `std::getline` over a string stream (a `LineStream` class), `buildDeck` and `analysisRequiresComplex`. Each of these is a method with loops, proved against a specification function.
- `Session`: the process globals (`g_output`, `g_vecNames`, `g_vecCount`, `g_samples`, `g_storeComplex`, `g_initialized`, `g_hasLoadedCircuit`) as the fields of the class `NgspiceSession`.
  - Its methods are the callbacks and the JNI entry points.
  - A ghost list of the stored rows states the row-major buffer layout as the class invariant.
  - The same fields as one value, `Globals`, give each handler's effect as a function (`Step`), a callback sequence's as a fold (`Steps`), and the effects of `initNgspice` and `runAnalysis` (`InitGlobals`, `AnalysisGlobals`); the methods are proved to change the object exactly so.
  - ngspice itself is an input. Its return codes, and the callbacks it makes during each engine call, arrive as an `EngineRun` or a `Callback` sequence.
- `Plot`: the entry-building loops and the two axis formatters. `log10`, `10^x` and the `%.2f`/`%.2e` renderings are function parameters.

The time formatter tests its thresholds from seconds down, so `0.0000005` s is labelled in nanoseconds with the number 500 (PlotUtils.kt:150); `Plot.TimeLabelExamples` states this.

## Model

| member | source | states |
|---|---|---|
| Text.DecimalString | app/src/main/cpp/native-lib.cpp:219 | the decimal text of an integer is non-empty and starts with `-` exactly when the integer is negative |
| Text.DecimalRoundTrip | app/src/main/cpp/native-lib.cpp:102 | the text `std::to_string` gives for a status or return code is a well-formed decimal that reads back as the same integer |
| Deck.ReplaceNbsp | app/src/main/cpp/native-lib.cpp:167-176 | replacing NBSP pairs never lengthens the line |
| Deck.ReplaceNbspFirst | app/src/main/cpp/native-lib.cpp:167-176 | the first character is a space when the line starts with a pair, else the line's first byte |
| Deck.ReplaceNbspNoPair | app/src/main/cpp/native-lib.cpp:167-176 | no `0xC2 0xA0` pair is left after the scan, including one that a replacement could have formed |
| Deck.ReplaceNbspLength | app/src/main/cpp/native-lib.cpp:167-176 | each replaced pair shortens the line by exactly one: the new length plus the number of pairs is the old length |
| Deck.ReplaceNbspIdentity | app/src/main/cpp/native-lib.cpp:167-176 | a line without NBSP pairs is left unchanged |
| Deck.ReplaceNbspSplit | app/src/main/cpp/native-lib.cpp:167-176 | when no pair straddles the cut, replacing NBSPs works piecewise, so all other bytes keep their order |
| Deck.NbspBecomesOneSpace | app/src/main/cpp/native-lib.cpp:167-176 | a pair between two pieces becomes exactly one space between the pieces' replacements |
| Deck.ReplaceNbspNoNewline | app/src/main/cpp/native-lib.cpp:167-176 | replacing NBSPs introduces no newline |
| Deck.TrimRight | app/src/main/cpp/native-lib.cpp:178-181 | trimming returns a prefix of the line, never longer, that does not end in a space or tab |
| Deck.TrimRightRemovesBlanks | app/src/main/cpp/native-lib.cpp:178-181 | everything trimmed off is a space or tab |
| Deck.NormalizeLine | app/src/main/cpp/native-lib.cpp:158-184 | the in-place CR strip, NBSP loop and pop-back loop compute the normalised line |
| Deck.NormalizedShape | app/src/main/cpp/native-lib.cpp:158-184 | a normalised line is no longer than its input, does not end in a blank and holds no NBSP pair |
| Deck.SecondCrKept | app/src/main/cpp/native-lib.cpp:160-163 | only one trailing CR is removed: of two, the second stays |
| Deck.CrReplaced | app/src/main/cpp/native-lib.cpp:167-176 | a CR after the text passes through the NBSP scan unchanged |
| Deck.CrBeforeBlankKept | app/src/main/cpp/native-lib.cpp:160-181 | the CR is stripped before trimming, so a CR followed by a blank stays in the line |
| Deck.CrSpaceReplaced | app/src/main/cpp/native-lib.cpp:167-176 | a CR then a space after the text pass through the NBSP scan unchanged |
| Deck.NormalizedBlankIsEmpty | app/src/main/cpp/native-lib.cpp:178-181 | after normalising, a line of only blanks is the empty line |
| Deck.NormalizedKeepsNoNewline | app/src/main/cpp/native-lib.cpp:158-184 | normalising a line without a newline gives a line without a newline |
| Deck.LineContainsDotEnd | app/src/main/cpp/native-lib.cpp:186-195 | the lowercase-copy-and-find loop is true exactly when `.end` occurs somewhere in the line, ignoring ASCII case |
| Deck.DotEndExamples | app/src/main/cpp/native-lib.cpp:186-195 | `.ENDS`, `x.end` and `.end\n` count as containing `.end`; `.en d` does not |
| Deck.HasDotEndWithNewline | app/src/main/cpp/native-lib.cpp:265-270 | testing before or after the newline is appended gives the same answer |
| Deck.NextNewline | app/src/main/cpp/native-lib.cpp:257 | the position found lies between the start and the end of the text and holds a newline unless it is the end |
| Deck.NextNewlineIsFirst | app/src/main/cpp/native-lib.cpp:257 | no newline lies between the start and that position |
| Deck.LinesFromNext | app/src/main/cpp/native-lib.cpp:256-257 | `getline` yields the text up to the next newline, or to the end, and reading resumes after that newline |
| Deck.LinesFromRoundTrip | app/src/main/cpp/native-lib.cpp:255-257 | joining back the lines read from any position gives the rest of the text, with a final newline added when it had none |
| Deck.LinesFromHaveNoNewline | app/src/main/cpp/native-lib.cpp:255-257 | no line read from any position contains a newline |
| Deck.LinesRoundTrip | app/src/main/cpp/native-lib.cpp:255-257 | joining the lines back with newlines gives the netlist, plus a final newline when it had none |
| Deck.LinesHaveNoNewline | app/src/main/cpp/native-lib.cpp:255-257 | no extracted line contains a newline |
| Deck.LineStream.constructor | app/src/main/cpp/native-lib.cpp:255 | a fresh stream has all lines of the netlist left to read |
| Deck.LineStream.GetLine | app/src/main/cpp/native-lib.cpp:256-257 | succeeds exactly when a line is left, returns that line and consumes it; at the end it fails and returns an empty line |
| Deck.AnyDotEndAppend | app/src/main/cpp/native-lib.cpp:265-267 | after a line is pushed, some kept line has `.end` exactly when one had before or the new one has |
| Deck.KeptLinesAppend | app/src/main/cpp/native-lib.cpp:257-272 | keeping lines distributes over concatenation, so kept lines stay in input order |
| Deck.KeptLinesShape | app/src/main/cpp/native-lib.cpp:257-272 | at most one kept line per input line; each ends in `\n`, is non-blank, has no other newline and no blank before its `\n` |
| Deck.KeptLinesFromInput | app/src/main/cpp/native-lib.cpp:257-272 | every kept line is the normalisation of some input line followed by `\n` |
| Deck.CompletedShape | app/src/main/cpp/native-lib.cpp:274-276 | appending `.end\n` when no line has `.end` leaves at least one line, every line ending in `\n`, and some line with `.end` |
| Deck.DeckLinesShape | app/src/main/cpp/native-lib.cpp:244-277 | the deck lines of any netlist are at least one, each non-empty and ending in `\n`, and one of them has `.end` |
| Deck.BuildDeck | app/src/main/cpp/native-lib.cpp:244-288 | the getline loop, the `.end` check and the conversion produce exactly the specified deck |
| Deck.ToCDeck | app/src/main/cpp/native-lib.cpp:279-287 | one slot per line in order, then the NULL terminator |
| Deck.CDeckOfDeckLines | app/src/main/cpp/native-lib.cpp:279-287 | converting well-formed lines gives an array whose only NULL is the last slot and whose every line ends in `\n` |
| Deck.DeckShape | app/src/main/cpp/native-lib.cpp:244-288 | the deck ends with the terminator and only there, every line before it ends with `\n`, and the deck always has a line with `.end` |
| Deck.EmptyNetlistDeck | app/src/main/cpp/native-lib.cpp:275-277 | an empty netlist gives the deck `.end\n` then the terminator |
| Deck.AnalysisRequiresComplex | app/src/main/cpp/native-lib.cpp:298-310 | true exactly when the command, lowercased and with leading spaces and tabs dropped, starts with `ac`; an empty or all-blank command gives false |
| Deck.StridePolicyExamples | app/src/main/cpp/native-lib.cpp:298-310 | `ac dec …` and an indented `AC lin …` are complex; `op`, `tran …` and the empty command are real |
| Session.RowSamples | app/src/main/cpp/native-lib.cpp:115-128 | one row of n values occupies n slots when real and 2n when complex |
| Session.PushRow | app/src/main/cpp/native-lib.cpp:115-128 | the push loops append the real part of each value in vector order, or its real and imaginary parts interleaved, after the existing samples |
| Session.RowLayout | app/src/main/cpp/native-lib.cpp:34-36 | within a row, component c of vector v sits at `v*stride + c` |
| Session.FlattenRowsLength | app/src/main/cpp/native-lib.cpp:34-36 | uniform rows of n vectors fill exactly `rows*n*stride` slots |
| Session.SampleLayout | app/src/main/cpp/native-lib.cpp:34-36 | the value of sample s, vector v, component c is at `s*n*stride + v*stride + c` |
| Session.Appended | app/src/main/cpp/native-lib.cpp:67-76 | appending keeps the old output as a prefix, adds the message and at most a newline, and leaves the output empty or ending in `\n` |
| Session.AppendedTerminated | app/src/main/cpp/native-lib.cpp:71-75 | a message already ending in `\n` is appended verbatim |
| Session.AppendedUnterminated | app/src/main/cpp/native-lib.cpp:71-75 | a message without a final `\n` gets one |
| Session.ExitOutputText | app/src/main/cpp/native-lib.cpp:99-107 | `controlledExit` adds the banner and `[ngspice exited with status N]` plus a newline, and N reads back as the status |
| Session.InitFailedCarriesCode | app/src/main/cpp/native-lib.cpp:218-221 | the init failure reply differs from the success reply and carries the return code in decimal |
| Session.StepConsistent | app/src/main/cpp/native-lib.cpp:109-148 | every callback keeps the buffer the flattening of the stored rows, the count equal to the number of names and the text terminated |
| Session.StepsConsistent | app/src/main/cpp/native-lib.cpp:87-154 | so does any sequence of callbacks |
| Session.StepsKeepFlags | app/src/main/cpp/native-lib.cpp:87-154 | no callback sets the loaded flag or the stride flag, and none initializes the engine: `controlledExit` only clears the flag (105) |
| Session.StepsOutput | app/src/main/cpp/native-lib.cpp:87-107 | the text after a sequence of callbacks is what its `sendChar`, `sendStat` and `controlledExit` calls print after the text before; nothing else feeds it |
| Session.PrintedExtends | app/src/main/cpp/native-lib.cpp:67-76 | text is only ever appended: the text before the callbacks is a prefix of the text after |
| Session.PrintedAppend | app/src/main/cpp/native-lib.cpp:87-107 | printing two batches of callbacks in turn is printing them together |
| Session.InitOutcome | app/src/main/cpp/native-lib.cpp:199-230 | the session is initialized afterwards exactly when it was before or the code is 0; an initialized session is unchanged; a fresh start replies with what the engine printed from empty text (206), and a successful one clears the loaded and background flags (224-226) |
| Session.AnalysisReply | app/src/main/cpp/native-lib.cpp:326-362 | the reply is what the engine printed while loading and, only when the load code is 0, while running the command, starting from empty text (330, 339): earlier text and clean-up output are gone |
| Session.AnalysisFlags | app/src/main/cpp/native-lib.cpp:343-348 | the stride flag follows the command, and the loaded flag is set when the load code is 0 and otherwise kept |
| Session.AnalysisConsistent | app/src/main/cpp/native-lib.cpp:312-363 | a run keeps the session state consistent |
| Session.NgspiceSession.constructor | app/src/main/cpp/native-lib.cpp:19-38 | the library starts uninitialised, with empty buffers and the real stride |
| Session.NgspiceSession.ClearOutput | app/src/main/cpp/native-lib.cpp:60-64 | empties the output and changes nothing else |
| Session.NgspiceSession.AppendOutput | app/src/main/cpp/native-lib.cpp:67-76 | a null message changes nothing; otherwise the output becomes the appended text and nothing else changes |
| Session.NgspiceSession.TakeOutputSnapshot | app/src/main/cpp/native-lib.cpp:79-83 | returns the current output, which is empty or ends in `\n` |
| Session.NgspiceSession.OnControlledExit | app/src/main/cpp/native-lib.cpp:99-107 | appends the two exit messages, marks the session uninitialised and changes nothing else |
| Session.NgspiceSession.OnSendInitData | app/src/main/cpp/native-lib.cpp:133-148 | the names become the announced names in order, the count their number, the samples are emptied, and nothing else changes |
| Session.NgspiceSession.OnSendData | app/src/main/cpp/native-lib.cpp:109-131 | appends n real values or 2n interleaved real/imaginary values after the earlier ones, records the row under the current stride, and changes nothing else |
| Session.NgspiceSession.OnBgThreadRunning | app/src/main/cpp/native-lib.cpp:150-154 | records the background-thread flag and nothing else |
| Session.NgspiceSession.Dispatch | app/src/main/cpp/native-lib.cpp:87-154 | the new state is what the callback's handler does to the old one (`Session.Step`), and the invariant holds |
| Session.NgspiceSession.Replay | app/src/main/cpp/native-lib.cpp:87-154 | the new state is the handlers' effects applied in the order of the callbacks (`Session.Steps`) |
| Session.NgspiceSession.InitNgspice | app/src/main/cpp/native-lib.cpp:199-230 | the new state is `Session.InitGlobals`: unchanged when already initialised; otherwise cleared text, then the start-up callbacks, then, for code 0, initialised with no circuit loaded; the reply is `ngspice initialized.` or the failure with its code |
| Session.NgspiceSession.RunAnalysis | app/src/main/cpp/native-lib.cpp:312-363 | refuses before init with the whole state unchanged; otherwise the new state is `Session.AnalysisGlobals` (clear, clean-up callbacks and clear once a circuit was loaded, stride from the command, load callbacks, command callbacks only for load code 0), the deck handed over is the specified one, and the reply is the text printed during load and command |
| Session.NgspiceSession.CleanStart | app/src/main/cpp/native-lib.cpp:330-340 | the output is cleared, and once a circuit has been loaded the `destroy all`/`reset` callbacks run and the output is cleared again (`Session.CleanGlobals`) |
| Session.NgspiceSession.LoadDeck | app/src/main/cpp/native-lib.cpp:342-347 | the stride flag becomes the command's policy, the deck handed over is the specified one, and the load callbacks are applied in order |
| Session.NgspiceSession.Analyse | app/src/main/cpp/native-lib.cpp:326-362 | after the initialization check, the new state is `Session.AnalysisGlobals` and the reply is the output at the end |
| Session.NgspiceSession.GetComplexStride | app/src/main/cpp/native-lib.cpp:383-387 | the stride of the current policy: 2 exactly when the complex flag is set, otherwise 1 |
| Session.NgspiceSession.GetVecNames | app/src/main/cpp/native-lib.cpp:389-402 | the names of the last `sendInitData`, in order |
| Session.NgspiceSession.TakeSamples | app/src/main/cpp/native-lib.cpp:365-379 | returns exactly the accumulated samples, the flattening of the stored rows, and leaves the buffer empty and the rest unchanged |
| Plot.KeptIndices | app/src/main/java/com/devinrcohen/droidspice/PlotUtils.kt:25-30 | no more indices are kept than there are samples |
| Plot.KeptIndicesExact | app/src/main/java/com/devinrcohen/droidspice/PlotUtils.kt:25-30 | the kept indices are exactly those whose value passes the axis test, strictly increasing |
| Plot.Points | app/src/main/java/com/devinrcohen/droidspice/PlotUtils.kt:24-30 | one entry per kept index |
| Plot.PointsFromKept | app/src/main/java/com/devinrcohen/droidspice/PlotUtils.kt:24-30 | entry k is the transformed x and the y of the k-th kept index |
| Plot.CollectEntries | app/src/main/java/com/devinrcohen/droidspice/PlotUtils.kt:24-30 | the loop builds exactly the specified entries |
| Plot.FrequencyEntries | app/src/main/java/com/devinrcohen/droidspice/PlotUtils.kt:21-30 | throws exactly when the arrays differ in length, otherwise builds the frequency entries |
| Plot.FrequencyPointsSpec | app/src/main/java/com/devinrcohen/droidspice/PlotUtils.kt:24-30 | exactly the indices with f > 0 are kept, in order, as `(log10 f, y)`; never more entries than samples |
| Plot.TransientEntries | app/src/main/java/com/devinrcohen/droidspice/PlotUtils.kt:101-110 | throws exactly when the arrays differ in length, otherwise builds the transient entries |
| Plot.TransientPointsSpec | app/src/main/java/com/devinrcohen/droidspice/PlotUtils.kt:104-110 | exactly the indices with t >= 0 are kept, in order, as `(t, y)` |
| Plot.AllTimesKept | app/src/main/java/com/devinrcohen/droidspice/PlotUtils.kt:104-110 | when no time is negative, every sample becomes an entry |
| Plot.Truncate | app/src/main/java/com/devinrcohen/droidspice/PlotUtils.kt:67-70 | rounds toward zero: within one of the value, on its side of zero |
| Plot.DoubleToInt | app/src/main/java/com/devinrcohen/droidspice/PlotUtils.kt:67-70 | `toInt()` is the truncation when it fits an `Int` and saturates at the bounds otherwise |
| Plot.FreqUnitOf | app/src/main/java/com/devinrcohen/droidspice/PlotUtils.kt:66-71 | GHz from 1e9, MHz on [1e6, 1e9), kHz on [1e3, 1e6), Hz below |
| Plot.FrequencyCountBounds | app/src/main/java/com/devinrcohen/droidspice/PlotUtils.kt:67-70 | the count is 1 to 999 for kHz and MHz and at least 1 for GHz, and it is the number of whole units the frequency holds |
| Plot.FrequencyLabelReadsBack | app/src/main/java/com/devinrcohen/droidspice/PlotUtils.kt:67-70 | the label is the decimal count followed by the unit and ends in `Hz` |
| Plot.FrequencyAxisLabelReadsBack | app/src/main/java/com/devinrcohen/droidspice/PlotUtils.kt:64-72 | the formatter labels `10^value`: the label ends in `Hz` and its number reads back as the count in the chosen unit |
| Plot.FrequencyLabelExamples | app/src/main/java/com/devinrcohen/droidspice/PlotUtils.kt:64-72 | 1.5e6 gives `1MHz`, 999 gives `999Hz`, 2.5e9 gives `2GHz`, 20e3 gives `20kHz` |
| Plot.TimeScale | app/src/main/java/com/devinrcohen/droidspice/PlotUtils.kt:147-151 | each unit's scale factor is the reciprocal of its threshold |
| Plot.TimeSuffix | app/src/main/java/com/devinrcohen/droidspice/PlotUtils.kt:147-151 | each unit's text is its SI prefix symbol, a single `µ` for micro, then `s` |
| Plot.TimeLabelOf | app/src/main/java/com/devinrcohen/droidspice/PlotUtils.kt:146-154 | a fixed label exactly from 1e-12, under the first threshold cleared, scaled by its factor and below the next threshold up; `0` exactly for v <= 1e-18; scientific exactly between |
| Plot.TimeLabelScaledRange | app/src/main/java/com/devinrcohen/droidspice/PlotUtils.kt:147-151 | a fixed label's number is at least 1, and below 1000 under a prefixed unit |
| Plot.TimeLabelExamples | app/src/main/java/com/devinrcohen/droidspice/PlotUtils.kt:146-154 | 5e-7 gives 500 ns, 2.5 gives 2.5 s, 0 and negatives give `0`, 1e-15 is scientific |
| Plot.TimeLabelTextUnit | app/src/main/java/com/devinrcohen/droidspice/PlotUtils.kt:146-154 | the label is `0` exactly for values up to 1e-18; otherwise it ends in a space and its unit, ` s` from 1 upward and in the scientific band |
| Plot.MicroSuffixMisencoded | app/src/main/java/com/devinrcohen/droidspice/PlotUtils.kt:149 | the micro unit as written differs from `µs` and is one character longer; every other unit is unaffected |

## Left out

- Concurrency is not modelled: the mutexes, the atomics and the condition variable (native-lib.cpp:19-58). The callbacks are sequential method calls on one object.
- `waitBgDone` is not modelled. Its wait for the background thread is a blocking operation; the model takes the command's callbacks as complete when it returns.
- The engine itself is not modelled: `ngSpice_Init`, `ngSpice_Command` and `ngSpice_Circ`. Their return codes and the callbacks they make are inputs. The `destroy all` and `reset` commands are represented only by the callbacks made during them.
- JNI marshalling is not modelled: `GetStringUTFChars`, `NewStringUTF`, `NewDoubleArray` and `NewObjectArray`. Strings are `string`, with bytes as characters; doubles are `real`. A null Java string read as `""` is not represented.
- `strdup` and `free` in `buildDeck` and `freeDeck` are not modelled. The deck is a sequence of `DeckEntry` values that ends with `Terminator`.
- `std::tolower` is modelled in the C locale, where only `A`-`Z` change.
- Floating-point arithmetic is not modelled. `log10`, `10^x`, the `Float` narrowing of entries and axis values, and the `%.2f`/`%.2e` text are function parameters or left abstract, so label thresholds are compared on exact reals.
- All chart styling in PlotUtils.kt is left out: colours, text sizes, legend, axes, offsets and `invalidate`.
- The UI files are left out: `MainActivity.kt`, `PlotFragment.kt` and `PlotDataHolder.kt`. They hold lifecycle wiring and a global holder.
- Plot.TimeLabelText: the unit text of the micro bucket is the corrected `µs` (see Findings), not the source's `Âµs`.

## Findings

| source | as written | input that shows it | evidently intended | confidence | as-written member | corrected member |
|---|---|---|---|---|---|---|
| app/src/main/java/com/devinrcohen/droidspice/PlotUtils.kt:149 | the micro-second suffix is the three characters `Âµs`, the UTF-8 bytes of `µ` read as Latin-1 | a time axis value of 5e-6 s is labelled with `Âµs` | the suffix `µs` | medium, not executed | Plot.MicroSuffixMisencoded | Plot.TimeSuffix |

/**
 * Netlist deck preparation of the native layer: cleaning one netlist line,
 * the case-insensitive search for `.end`, splitting the netlist into lines the
 * way `std::getline` does, assembling the NULL-terminated deck handed to the
 * engine, and the stride policy chosen from the analysis command.
 *
 * The bytes of a C++ `std::string` are modelled as the characters of a Dafny
 * `string` (each character stands for one byte, code below 256).
 */
module Deck {

  const CR: char := '\r'
  const LF: char := '\n'
  const SP: char := ' '
  const TAB: char := '\t'
  /** The UTF-8 encoding of U+00A0 NO-BREAK SPACE is the byte pair 0xC2 0xA0. */
  const NBSP_LEAD: char := '\U{C2}'
  const NBSP_TRAIL: char := '\U{A0}'
  const DOT_END: string := ".end"
  /** The line appended to a deck that has no `.end` of its own. */
  const END_LINE: string := ".end\n"

  predicate IsBlank(c: char) {
    c == SP || c == TAB
  }

  /** No character of `s` is other than a space or a tab (`find_first_not_of(" \t") == npos`). */
  predicate AllBlank(s: string) {
    forall i :: 0 <= i < |s| ==> IsBlank(s[i])
  }

  /* ------------------------------------------------------------------ */
  /* normalizeLine                                                       */
  /* ------------------------------------------------------------------ */

  /** Removes one trailing carriage return, if there is one. */
  function StripCr(s: string): string {
    if |s| > 0 && s[|s| - 1] == CR then s[..|s| - 1] else s
  }

  /** An NBSP byte pair starts at position `i` of `s`. */
  predicate NbspAt(s: string, i: int) {
    0 <= i && i + 1 < |s| && s[i] == NBSP_LEAD && s[i + 1] == NBSP_TRAIL
  }

  /**
   * Left-to-right replacement of each NBSP byte pair by one space.
   * The result is never longer than the input.
   */
  function ReplaceNbsp(s: string): (r: string)
    ensures |r| <= |s|
    decreases |s|
  {
    if |s| < 2 then s
    else if NbspAt(s, 0) then [SP] + ReplaceNbsp(s[2..])
    else [s[0]] + ReplaceNbsp(s[1..])
  }

  /** The first character is a space when the line starts with a pair, else the line's first byte. */
  lemma ReplaceNbspFirst(s: string)
    requires |s| > 0
    ensures |ReplaceNbsp(s)| > 0 && ReplaceNbsp(s)[0] == (if NbspAt(s, 0) then SP else s[0])
  {
  }

  /** One step of the left-to-right scan, at position `i`. */
  lemma ReplaceNbspStep(s: string, i: nat)
    requires i + 1 < |s|
    ensures ReplaceNbsp(s[i..]) ==
      if NbspAt(s, i) then [SP] + ReplaceNbsp(s[i + 2..]) else [s[i]] + ReplaceNbsp(s[i + 1..])
  {
    var u := s[i..];
    if NbspAt(s, i) {
      assert u[2..] == s[i + 2..];
      assert NbspAt(u, 0);
      PairHead(u);
    } else {
      assert u[1..] == s[i + 1..];
      assert !NbspAt(u, 0) && u[0] == s[i];
      CharHead(u, s[i]);
    }
  }

  /** No NBSP pair survives the replacement, not even one formed across a replaced pair. */
  lemma {:induction false} ReplaceNbspNoPair(s: string)
    ensures forall i :: !NbspAt(ReplaceNbsp(s), i)
    decreases |s|
  {
    if |s| >= 2 {
      var t := if NbspAt(s, 0) then s[2..] else s[1..];
      ReplaceNbspNoPair(t);
      var rt := ReplaceNbsp(t);
      var r := ReplaceNbsp(s);
      ReplaceNbspFirst(s);
      if |t| > 0 {
        ReplaceNbspFirst(t);
      }
      assert r == [r[0]] + rt;
      forall i ensures !NbspAt(r, i) {
        if i >= 1 {
          assert !NbspAt(rt, i - 1);
          assert i + 1 < |r| ==> r[i] == rt[i - 1] && r[i + 1] == rt[i];
        } else if i == 0 && |r| >= 2 {
          assert r[1] == rt[0];
          assert r[0] == NBSP_LEAD ==> !NbspAt(s, 0) && t == s[1..] && rt[0] == (if NbspAt(t, 0) then SP else s[1]);
        }
      }
    }
  }

  /**
   * Removes trailing spaces and tabs: the result is the longest prefix of `s`
   * that does not end in a blank, and only blanks were removed.
   */
  function TrimRight(s: string): (r: string)
    ensures |r| <= |s| && r == s[..|r|]
    ensures r == [] || !IsBlank(r[|r| - 1])
    decreases |s|
  {
    if |s| > 0 && IsBlank(s[|s| - 1]) then TrimRight(s[..|s| - 1]) else s
  }

  /** Trimming removes blanks only. */
  lemma {:induction false} TrimRightRemovesBlanks(s: string)
    ensures forall i :: |TrimRight(s)| <= i < |s| ==> IsBlank(s[i])
    decreases |s|
  {
    if |s| > 0 && IsBlank(s[|s| - 1]) {
      TrimRightRemovesBlanks(s[..|s| - 1]);
    }
  }

  /** What `normalizeLine` returns for `s`. */
  function Normalized(s: string): string {
    TrimRight(ReplaceNbsp(StripCr(s)))
  }

  /**
   * `normalizeLine`: strips one CR, rewrites NBSP pairs in place with a
   * moving index, then pops trailing spaces and tabs.
   */
  method NormalizeLine(line: string) returns (s: string)
    ensures s == Normalized(line)
  {
    s := line;
    if |s| > 0 && s[|s| - 1] == CR {
      s := s[..|s| - 1];
    }
    ghost var stripped := s;
    var i := 0;
    assert s[..i] == [] && s[i..] == s;
    while i + 1 < |s|
      invariant 0 <= i <= |s|
      invariant ReplaceNbsp(stripped) == s[..i] + ReplaceNbsp(s[i..])
      decreases |s| - i
    {
      if s[i] == NBSP_LEAD && s[i + 1] == NBSP_TRAIL {
        ReplacePairStep(s, i);
        s := s[..i] + [SP] + s[i + 2..];
      } else {
        KeepCharStep(s, i);
      }
      i := i + 1;
    }
    assert s[..i] + s[i..] == s;
    while |s| > 0 && IsBlank(s[|s| - 1])
      invariant TrimRight(s) == Normalized(line)
    {
      s := s[..|s| - 1];
    }
  }

  /** Replacing the pair at `i` by a space moves the scan past it without changing the result. */
  lemma ReplacePairStep(s: string, i: nat)
    requires NbspAt(s, i)
    ensures var t := s[..i] + [SP] + s[i + 2..];
      s[..i] + ReplaceNbsp(s[i..]) == t[..i + 1] + ReplaceNbsp(t[i + 1..])
  {
    ReplaceNbspStep(s, i);
    var t := s[..i] + [SP] + s[i + 2..];
    assert t[..i + 1] == s[..i] + [SP];
    assert t[i + 1..] == s[i + 2..];
    ConcatAssoc(s[..i], [SP], ReplaceNbsp(s[i + 2..]));
  }

  /** A character that does not start a pair is passed over unchanged. */
  lemma KeepCharStep(s: string, i: nat)
    requires i + 1 < |s| && !NbspAt(s, i)
    ensures s[..i] + ReplaceNbsp(s[i..]) == s[..i + 1] + ReplaceNbsp(s[i + 1..])
  {
    ReplaceNbspStep(s, i);
    assert s[..i + 1] == s[..i] + [s[i]];
    ConcatAssoc(s[..i], [s[i]], ReplaceNbsp(s[i + 1..]));
  }

  /** The number of positions at which an NBSP pair starts (pairs never overlap). */
  function NbspCount(s: string): nat
    decreases |s|
  {
    if |s| < 2 then 0 else (if NbspAt(s, 0) then 1 else 0) + NbspCount(s[1..])
  }

  /** Each NBSP pair shrinks to one character: the length drops by exactly the number of pairs. */
  lemma {:induction false} ReplaceNbspLength(s: string)
    ensures |ReplaceNbsp(s)| + NbspCount(s) == |s|
    decreases |s|
  {
    if |s| >= 2 {
      if NbspAt(s, 0) {
        ReplaceNbspLength(s[2..]);
        assert s[1..][1..] == s[2..];
        assert !NbspAt(s[1..], 0);
      } else {
        ReplaceNbspLength(s[1..]);
      }
    }
  }

  /** A line without NBSP pairs is left exactly as it was. */
  lemma {:induction false} ReplaceNbspIdentity(s: string)
    requires forall i :: !NbspAt(s, i)
    ensures ReplaceNbsp(s) == s
    decreases |s|
  {
    if |s| >= 2 {
      assert !NbspAt(s, 0);
      forall i ensures !NbspAt(s[1..], i) {
        assert !NbspAt(s, i + 1);
      }
      ReplaceNbspIdentity(s[1..]);
    }
  }

  /**
   * The replacement works piece by piece: cutting a line anywhere except
   * between the two bytes of a pair, each piece is rewritten on its own and
   * the rewritten pieces keep their order.
   */
  lemma {:induction false} ReplaceNbspSplit(a: string, b: string)
    requires !(|a| > 0 && |b| > 0 && a[|a| - 1] == NBSP_LEAD && b[0] == NBSP_TRAIL)
    ensures ReplaceNbsp(a + b) == ReplaceNbsp(a) + ReplaceNbsp(b)
    decreases |a|
  {
    if a == [] {
      assert a + b == b;
    } else if |a + b| < 2 {
    } else if |a| == 1 {
      assert (a + b)[1..] == b;
      assert !NbspAt(a + b, 0);
    } else if NbspAt(a, 0) {
      ReplaceNbspSplit(a[2..], b);
      SplitPairStep(a, b);
    } else {
      ReplaceNbspSplit(a[1..], b);
      SplitCharStep(a, b);
    }
  }

  /** The split step when `a` starts with a pair: the pair becomes the first space of both sides. */
  lemma SplitPairStep(a: string, b: string)
    requires NbspAt(a, 0)
    requires ReplaceNbsp(a[2..] + b) == ReplaceNbsp(a[2..]) + ReplaceNbsp(b)
    ensures ReplaceNbsp(a + b) == ReplaceNbsp(a) + ReplaceNbsp(b)
  {
    var ab := a + b;
    assert ab[2..] == a[2..] + b;
    assert NbspAt(ab, 0);
    PairHead(ab);
    PairHead(a);
    ConcatAssoc([SP], ReplaceNbsp(a[2..]), ReplaceNbsp(b));
  }

  /** The split step when `a` (of two bytes or more) does not start with a pair: its first byte is kept on both sides. */
  lemma SplitCharStep(a: string, b: string)
    requires |a| >= 2 && !NbspAt(a, 0)
    requires ReplaceNbsp(a[1..] + b) == ReplaceNbsp(a[1..]) + ReplaceNbsp(b)
    ensures ReplaceNbsp(a + b) == ReplaceNbsp(a) + ReplaceNbsp(b)
  {
    var ab := a + b;
    var c := a[0];
    assert ab[1..] == a[1..] + b;
    assert ab[0] == c;
    assert !NbspAt(ab, 0) by {
      assert ab[1] == a[1];
    }
    CharHead(ab, c);
    CharHead(a, c);
    ConcatAssoc([c], ReplaceNbsp(a[1..]), ReplaceNbsp(b));
  }

  lemma ConcatAssoc(x: string, y: string, z: string)
    ensures x + (y + z) == (x + y) + z
  {
  }

  /** The scan replaces a leading pair by one space. */
  lemma PairHead(s: string)
    requires NbspAt(s, 0)
    ensures ReplaceNbsp(s) == [SP] + ReplaceNbsp(s[2..])
  {
  }

  /** The scan keeps a leading byte that does not start a pair. */
  lemma CharHead(s: string, c: char)
    requires |s| >= 2 && !NbspAt(s, 0) && s[0] == c
    ensures ReplaceNbsp(s) == [c] + ReplaceNbsp(s[1..])
  {
  }

  /** An NBSP pair in the middle of a line becomes exactly one space; the bytes around it are untouched. */
  lemma NbspBecomesOneSpace(a: string, b: string)
    ensures ReplaceNbsp(a + [NBSP_LEAD, NBSP_TRAIL] + b) == ReplaceNbsp(a) + [SP] + ReplaceNbsp(b)
  {
    var pair := [NBSP_LEAD, NBSP_TRAIL];
    var pb := pair + b;
    assert pb[2..] == b;
    assert NbspAt(pb, 0);
    PairHead(pb);
    ReplaceNbspSplit(a, pb);
    ConcatAssoc(a, pair, b);
    ConcatAssoc(ReplaceNbsp(a), [SP], ReplaceNbsp(b));
  }

  /**
   * A normalised line does not end in a space or a tab, is never longer than
   * the line it came from, and holds no NBSP pair.
   */
  lemma NormalizedShape(s: string)
    ensures var r := Normalized(s);
      && |r| <= |s|
      && (r == [] || !IsBlank(r[|r| - 1]))
      && forall i :: !NbspAt(r, i)
  {
    var r := Normalized(s);
    var m := ReplaceNbsp(StripCr(s));
    ReplaceNbspNoPair(StripCr(s));
    forall i ensures !NbspAt(r, i) {
      assert !NbspAt(m, i);
      assert 0 <= i && i + 1 < |r| ==> r[i] == m[i] && r[i + 1] == m[i + 1];
    }
  }

  /** Only one trailing CR is removed: of two, the second stays in the line. */
  lemma SecondCrKept(t: string)
    ensures Normalized(t + [CR, CR]) == ReplaceNbsp(t) + [CR]
  {
    var u := t + [CR, CR];
    assert StripCr(u) == t + [CR];
    CrReplaced(t);
    TrimRightKeeps(ReplaceNbsp(t) + [CR]);
  }

  /** A CR after the text passes through the NBSP scan unchanged. */
  lemma CrReplaced(t: string)
    ensures ReplaceNbsp(t + [CR]) == ReplaceNbsp(t) + [CR]
  {
    ReplaceNbspSplit(t, [CR]);
    assert ReplaceNbsp([CR]) == [CR];
  }

  /** The CR is stripped before trimming: a CR followed by a blank stays in the line. */
  lemma CrBeforeBlankKept(t: string)
    ensures Normalized(t + [CR, SP]) == ReplaceNbsp(t) + [CR]
  {
    var v := t + [CR, SP];
    assert StripCr(v) == v;
    var m := ReplaceNbsp(t) + [CR];
    CrSpaceReplaced(t);
    TrimRightBlank(m, SP);
    TrimRightKeeps(m);
  }

  /** A CR and a space after the text pass through the NBSP scan unchanged. */
  lemma CrSpaceReplaced(t: string)
    ensures ReplaceNbsp(t + [CR, SP]) == (ReplaceNbsp(t) + [CR]) + [SP]
  {
    ReplaceNbspSplit(t, [CR, SP]);
    CharHead([CR, SP], CR);
    assert [CR, SP][1..] == [SP];
  }

  /** Trimming drops a trailing blank and carries on with what is left. */
  lemma TrimRightBlank(m: string, c: char)
    requires IsBlank(c)
    ensures TrimRight(m + [c]) == TrimRight(m)
  {
    assert (m + [c])[..|m|] == m;
  }

  /** Trimming leaves a line that does not end in a blank unchanged. */
  lemma TrimRightKeeps(m: string)
    requires |m| > 0 && !IsBlank(m[|m| - 1])
    ensures TrimRight(m) == m
  {
  }

  /** After normalisation, a line of only blanks is exactly an empty line. */
  lemma NormalizedBlankIsEmpty(s: string)
    ensures AllBlank(Normalized(s)) <==> Normalized(s) == []
  {
    var r := Normalized(s);
    if r != [] {
      assert !IsBlank(r[|r| - 1]);
    }
  }

  /* ------------------------------------------------------------------ */
  /* lineContainsDotEnd                                                  */
  /* ------------------------------------------------------------------ */

  /** `std::tolower` in the C locale: only `A`..`Z` change. */
  function ToLower(c: char): char {
    if 'A' <= c <= 'Z' then (c as int - 'A' as int + 'a' as int) as char else c
  }

  /** The needle sits at position `i` of the haystack. */
  predicate OccursAt(hay: string, needle: string, i: int) {
    0 <= i && i + |needle| <= |hay| && hay[i..i + |needle|] == needle
  }

  /** `hay.find(needle) != npos`. */
  predicate Contains(hay: string, needle: string) {
    exists i | 0 <= i <= |hay| - |needle| :: OccursAt(hay, needle, i)
  }

  /** `.end` starts at position `i` of `line`, ignoring the case of ASCII letters. */
  predicate DotEndAt(line: string, i: int) {
    0 <= i && i + 4 <= |line| && forall k :: 0 <= k < 4 ==> ToLower(line[i + k]) == DOT_END[k]
  }

  /** `.end` occurs anywhere in `line`, ignoring case (so `.ENDS` and `x.end` count). */
  predicate HasDotEnd(line: string) {
    exists i | 0 <= i <= |line| - 4 :: DotEndAt(line, i)
  }

  /**
   * `lineContainsDotEnd`: builds a lowercase copy of the line one character
   * at a time, then searches it for `.end`.
   */
  method LineContainsDotEnd(line: string) returns (found: bool)
    ensures found <==> HasDotEnd(line)
  {
    var low := "";
    for j := 0 to |line|
      invariant |low| == j
      invariant forall k :: 0 <= k < j ==> low[k] == ToLower(line[k])
    {
      low := low + [ToLower(line[j])];
    }
    assert |DOT_END| == 4;
    forall i | 0 <= i <= |line| - 4
      ensures OccursAt(low, DOT_END, i) <==> DotEndAt(line, i)
    {
      assert forall j :: i <= j < i + 4 ==> low[i..i + 4][j - i] == ToLower(line[j]);
    }
    found := Contains(low, DOT_END);
  }

  /** Appending the newline that ends a deck line does not change whether `.end` occurs. */
  lemma HasDotEndWithNewline(s: string)
    ensures HasDotEnd(s + [LF]) <==> HasDotEnd(s)
  {
    assert |DOT_END| == 4 && DOT_END[3] == 'd';
    var t := s + [LF];
    forall i | 0 <= i <= |t| - 4 ensures DotEndAt(t, i) <==> DotEndAt(s, i) {
      assert ToLower(t[|t| - 1]) != 'd';
      assert forall j :: i <= j < |s| ==> t[j] == s[j];
    }
  }

  /** Subcircuit ends and prefixed words count as `.end` lines too; other text does not. */
  lemma DotEndExamples()
    ensures HasDotEnd(".ENDS")
    ensures HasDotEnd("x.end")
    ensures HasDotEnd(END_LINE)
    ensures !HasDotEnd(".en d")
  {
    assert |DOT_END| == 4;
    assert DotEndAt(".ENDS", 0);
    assert DotEndAt("x.end", 1);
    assert DotEndAt(END_LINE, 0);
    assert !DotEndAt(".en d", 0) by { assert ToLower(".en d"[3]) != DOT_END[3]; }
    assert !DotEndAt(".en d", 1) by { assert ToLower(".en d"[1]) != DOT_END[0]; }
  }

  /* ------------------------------------------------------------------ */
  /* splitting the netlist as std::getline does                          */
  /* ------------------------------------------------------------------ */

  /** Index of the first newline at or after `i`, or `|s|` when there is none. */
  function NextNewline(s: string, i: nat): (j: nat)
    requires i <= |s|
    ensures i <= j <= |s|
    ensures j < |s| ==> s[j] == LF
    decreases |s| - i
  {
    if i == |s| || s[i] == LF then i else NextNewline(s, i + 1)
  }

  /** No newline lies between `i` and the one `NextNewline` finds. */
  lemma {:induction false} NextNewlineIsFirst(s: string, i: nat, k: nat)
    requires i <= k < |s| && k < NextNewline(s, i)
    ensures s[k] != LF
    decreases |s| - i
  {
    if k > i {
      NextNewlineIsFirst(s, i + 1, k);
    }
  }

  /**
   * The lines `std::getline` extracts from `s` starting at `i`, in order:
   * text up to each newline, plus the unterminated tail if it is not empty.
   */
  function LinesFrom(s: string, i: nat): seq<string>
    requires i <= |s|
    decreases |s| - i
  {
    if i == |s| then []
    else
      var j := NextNewline(s, i);
      if j == |s| then [s[i..]] else [s[i..j]] + LinesFrom(s, j + 1)
  }

  /** The lines `std::getline` extracts from the whole of `s`. */
  function Lines(s: string): seq<string> {
    LinesFrom(s, 0)
  }

  /** The lines joined back, each followed by a newline. */
  function JoinLines(lines: seq<string>): string {
    if lines == [] then [] else lines[0] + [LF] + JoinLines(lines[1..])
  }

  /** What joining the lines read from `i` gives back: the text from `i`, newline-terminated. */
  function WithFinalNewline(s: string, i: nat): string
    requires i <= |s|
  {
    if i == |s| || s[|s| - 1] == LF then s[i..] else s[i..] + [LF]
  }

  /** Splitting from `i` loses nothing: joining the lines back gives the rest of the text. */
  lemma {:induction false} LinesFromRoundTrip(s: string, i: nat)
    requires i <= |s|
    ensures JoinLines(LinesFrom(s, i)) == WithFinalNewline(s, i)
    decreases |s| - i
  {
    if i < |s| {
      var j := NextNewline(s, i);
      if j < |s| {
        LinesFromRoundTrip(s, j + 1);
        TerminatedLineStep(s, i, j);
      } else {
        UnterminatedLineStep(s, i);
      }
    }
  }

  /** One step of the round trip: the first line and its newline, then the rest joined back. */
  lemma TerminatedLineStep(s: string, i: nat, j: nat)
    requires i < |s| && j == NextNewline(s, i) && j < |s|
    requires JoinLines(LinesFrom(s, j + 1)) == WithFinalNewline(s, j + 1)
    ensures JoinLines(LinesFrom(s, i)) == WithFinalNewline(s, i)
  {
    LinesFromTerminated(s, i, j);
    JoinLinesCons(s[i..j], LinesFrom(s, j + 1));
    WithFinalNewlineStep(s, i, j);
  }

  /** A line ended by a newline is split off, and reading goes on after the newline. */
  lemma LinesFromTerminated(s: string, i: nat, j: nat)
    requires i < |s| && j == NextNewline(s, i) && j < |s|
    ensures LinesFrom(s, i) == [s[i..j]] + LinesFrom(s, j + 1)
  {
  }

  lemma JoinLinesCons(line: string, rest: seq<string>)
    ensures JoinLines([line] + rest) == line + [LF] + JoinLines(rest)
  {
    assert ([line] + rest)[1..] == rest;
  }

  /** The text from `i`, newline-terminated, is its first line, that line's newline, then the same for the rest. */
  lemma WithFinalNewlineStep(s: string, i: nat, j: nat)
    requires i <= j < |s| && s[j] == LF
    ensures WithFinalNewline(s, i) == s[i..j] + [LF] + WithFinalNewline(s, j + 1)
  {
    assert s[i..] == s[i..j] + [LF] + s[j + 1..];
    if j + 1 < |s| {
      assert s[i..] + [LF] == s[i..j] + [LF] + (s[j + 1..] + [LF]);
    }
  }

  /** The last step of the round trip: a final line without newline gets one. */
  lemma UnterminatedLineStep(s: string, i: nat)
    requires i < |s| && NextNewline(s, i) == |s|
    ensures JoinLines(LinesFrom(s, i)) == WithFinalNewline(s, i)
    ensures s[|s| - 1] != LF
  {
    NextNewlineIsFirst(s, i, |s| - 1);
    assert LinesFrom(s, i) == [s[i..]];
    assert JoinLines([s[i..]]) == s[i..] + [LF] + JoinLines([]);
  }

  /**
   * Splitting loses nothing: joining the lines back gives the netlist, with a
   * newline added when its last line had none.
   */
  lemma LinesRoundTrip(s: string)
    ensures JoinLines(Lines(s)) == if s == [] || s[|s| - 1] == LF then s else s + [LF]
  {
    LinesFromRoundTrip(s, 0);
    assert s[0..] == s;
  }

  /** No line read from `i` on holds a newline. */
  lemma {:induction false} LinesFromHaveNoNewline(s: string, i: nat)
    requires i <= |s|
    ensures forall k :: 0 <= k < |LinesFrom(s, i)| ==> LF !in LinesFrom(s, i)[k]
    decreases |s| - i
  {
    if i < |s| {
      var j := NextNewline(s, i);
      forall k | i <= k < j ensures s[k] != LF {
        NextNewlineIsFirst(s, i, k);
      }
      assert LF !in s[i..j];
      if j < |s| {
        LinesFromHaveNoNewline(s, j + 1);
      } else {
        assert s[i..j] == s[i..];
      }
    }
  }

  /** No line that `std::getline` yields holds a newline. */
  lemma LinesHaveNoNewline(s: string)
    ensures forall k :: 0 <= k < |Lines(s)| ==> LF !in Lines(s)[k]
  {
    LinesFromHaveNoNewline(s, 0);
  }

  /** The next line runs from `i` to the next newline or the end; reading resumes after that newline, if any. */
  lemma LinesFromNext(s: string, i: nat, j: nat)
    requires i < |s| && j == NextNewline(s, i)
    ensures LinesFrom(s, i) == [s[i..j]] + LinesFrom(s, if j < |s| then j + 1 else j)
  {
    if j < |s| {
      LinesFromTerminated(s, i, j);
    } else {
      assert s[i..j] == s[i..];
      assert LinesFrom(s, j) == [];
    }
  }

  /** The `std::stringstream` that `buildDeck` reads its lines from. */
  class LineStream {
    const text: string
    var pos: nat

    ghost predicate Valid()
      reads this
    {
      pos <= |text|
    }

    /** The lines still to be read. */
    ghost function Remaining(): seq<string>
      reads this
      requires Valid()
    {
      LinesFrom(text, pos)
    }

    constructor (text: string)
      ensures Valid() && this.text == text && pos == 0
      ensures Remaining() == Lines(text)
    {
      this.text := text;
      pos := 0;
    }

    /**
     * `std::getline(ss, line)`: fails once the text is used up; otherwise
     * yields the characters up to the next newline and moves past it.
     */
    method GetLine() returns (ok: bool, line: string)
      requires Valid()
      modifies this
      ensures Valid()
      ensures ok <==> old(Remaining()) != []
      ensures ok ==> old(Remaining()) == [line] + Remaining()
      ensures !ok ==> line == [] && Remaining() == []
    {
      if pos >= |text| {
        ok, line := false, [];
        return;
      }
      var j := pos;
      while j < |text| && text[j] != LF
        invariant pos <= j <= |text|
        invariant NextNewline(text, j) == NextNewline(text, pos)
        decreases |text| - j
      {
        j := j + 1;
      }
      assert NextNewline(text, j) == j;
      LinesFromNext(text, pos, j);
      line := text[pos..j];
      pos := if j < |text| then j + 1 else j;
      ok := true;
    }
  }

  /* ------------------------------------------------------------------ */
  /* buildDeck                                                           */
  /* ------------------------------------------------------------------ */

  /** One slot of the `char**` deck: a line, or the NULL pointer that closes it. */
  datatype DeckEntry = Line(text: string) | Terminator

  /** What one input line contributes to the deck: nothing if it is blank, else its normalised text and `\n`. */
  function KeepLine(line: string): seq<string> {
    var n := Normalized(line);
    if AllBlank(n) then [] else [n + [LF]]
  }

  /** The deck lines kept for the input lines, in input order. */
  function KeptLines(lines: seq<string>): seq<string> {
    if lines == [] then [] else KeepLine(lines[0]) + KeptLines(lines[1..])
  }

  /** Some line of `lines` contains `.end`, ignoring case. */
  predicate AnyDotEnd(lines: seq<string>) {
    exists k :: 0 <= k < |lines| && HasDotEnd(lines[k])
  }

  /** The deck's text lines: the kept lines, then `.end\n` if none of them has `.end`. */
  function DeckLines(netlist: string): seq<string> {
    var kept := KeptLines(Lines(netlist));
    if AnyDotEnd(kept) then kept else kept + [END_LINE]
  }

  /** The deck `buildDeck` returns: the deck lines, then the NULL terminator. */
  function DeckOf(netlist: string): seq<DeckEntry> {
    CDeck(DeckLines(netlist))
  }

  /** The `char**` array for `lines`: one slot per line, in order, then the NULL pointer. */
  function CDeck(lines: seq<string>): seq<DeckEntry> {
    seq(|lines|, k requires 0 <= k < |lines| => Line(lines[k])) + [Terminator]
  }

  /** The NULL pointer closes the array and appears nowhere else; slot `k` holds line `k`. */
  lemma CDeckShape(lines: seq<string>)
    ensures var deck := CDeck(lines);
      && |deck| == |lines| + 1
      && deck[|lines|] == Terminator
      && (forall k :: 0 <= k < |lines| ==> deck[k] == Line(lines[k]))
  {
  }

  lemma AnyDotEndAppend(lines: seq<string>, t: string)
    ensures AnyDotEnd(lines + [t]) <==> AnyDotEnd(lines) || HasDotEnd(t)
  {
    var ext := lines + [t];
    assert forall k :: 0 <= k < |lines| ==> ext[k] == lines[k];
    assert ext[|lines|] == t;
  }

  /** Reading one more input line extends the kept lines by what that line contributes. */
  lemma KeptLinesStep(total: seq<string>, lines: seq<string>, raw: string, rest: seq<string>)
    requires total == lines + KeptLines([raw] + rest)
    ensures AllBlank(Normalized(raw)) ==> total == lines + KeptLines(rest)
    ensures !AllBlank(Normalized(raw)) ==> total == (lines + [Normalized(raw) + [LF]]) + KeptLines(rest)
  {
    KeptLinesCons(raw, rest);
    ConcatStep(total, lines, KeepLine(raw), KeptLines(rest));
  }

  /** Regrouping `lines + (k + rest)` when `k` is empty or a single line. */
  lemma ConcatStep(total: seq<string>, lines: seq<string>, k: seq<string>, rest: seq<string>)
    requires total == lines + (k + rest)
    ensures k == [] ==> total == lines + rest
    ensures |k| == 1 ==> total == (lines + [k[0]]) + rest
  {
    if |k| == 1 {
      assert k == [k[0]];
    }
  }

  lemma KeptLinesCons(raw: string, rest: seq<string>)
    ensures KeptLines([raw] + rest) == KeepLine(raw) + KeptLines(rest)
  {
    assert ([raw] + rest)[0] == raw && ([raw] + rest)[1..] == rest;
  }

  /**
   * `buildDeck`: reads the netlist line by line, keeps the normalised
   * non-blank lines with a newline appended, adds `.end\n` when no kept line
   * has `.end`, then copies the lines into a NULL-terminated deck.
   */
  method BuildDeck(netlist: string) returns (deck: seq<DeckEntry>)
    ensures deck == DeckOf(netlist)
  {
    var lines: seq<string> := [];
    var hasEnd := false;
    var ss := new LineStream(netlist);
    var more := true;
    assert [] + ss.Remaining() == ss.Remaining();
    while more
      invariant ss.Valid() && ss.text == netlist
      invariant more ==> KeptLines(Lines(netlist)) == lines + KeptLines(ss.Remaining())
      invariant !more ==> KeptLines(Lines(netlist)) == lines
      invariant hasEnd <==> AnyDotEnd(lines)
      decreases if more then |ss.Remaining()| + 1 else 0
    {
      ghost var before := ss.Remaining();
      var ok, line := ss.GetLine();
      if !ok {
        more := false;
        assert lines + KeptLines([]) == lines;
      } else {
        KeptLinesStep(KeptLines(Lines(netlist)), lines, line, ss.Remaining());
        line := NormalizeLine(line);
        if !AllBlank(line) {
          var dotEnd := LineContainsDotEnd(line);
          if dotEnd {
            hasEnd := true;
          }
          HasDotEndWithNewline(line);
          AnyDotEndAppend(lines, line + [LF]);
          line := line + [LF];
          lines := lines + [line];
        }
      }
    }
    if !hasEnd {
      lines := lines + [END_LINE];
    }
    assert lines == DeckLines(netlist);
    deck := ToCDeck(lines);
  }

  /** The last part of `buildDeck`: one `strdup`ed slot per line, then the NULL terminator. */
  method ToCDeck(lines: seq<string>) returns (deck: seq<DeckEntry>)
    ensures deck == CDeck(lines)
  {
    var cLines: seq<DeckEntry> := [];
    for k := 0 to |lines|
      invariant |cLines| == k
      invariant forall j :: 0 <= j < k ==> cLines[j] == Line(lines[j])
    {
      cLines := cLines + [Line(lines[k])];
    }
    deck := cLines + [Terminator];
  }

  /** Keeping lines commutes with concatenation, so kept lines stay in input order. */
  lemma {:induction false} KeptLinesAppend(a: seq<string>, b: seq<string>)
    ensures KeptLines(a + b) == KeptLines(a) + KeptLines(b)
    decreases |a|
  {
    if a == [] {
      assert a + b == b;
    } else {
      assert (a + b)[0] == a[0];
      assert (a + b)[1..] == a[1..] + b;
      KeptLinesAppend(a[1..], b);
    }
  }

  /** A well-formed deck line: a newline-terminated, non-blank normalised line. */
  predicate IsDeckLine(t: string) {
    |t| >= 2 && t[|t| - 1] == LF && !AllBlank(t[..|t| - 1])
    && !IsBlank(t[|t| - 2]) && LF !in t[..|t| - 1]
  }

  /**
   * Every kept line is the normalisation of some input line, is not blank,
   * ends with its newline and has no blank before it; at most one kept line
   * per input line.
   */
  lemma {:induction false} KeptLinesShape(lines: seq<string>)
    requires forall k :: 0 <= k < |lines| ==> LF !in lines[k]
    ensures |KeptLines(lines)| <= |lines|
    ensures forall k :: 0 <= k < |KeptLines(lines)| ==> IsDeckLine(KeptLines(lines)[k])
    decreases |lines|
  {
    if lines != [] {
      var rest := lines[1..];
      KeptLinesShape(rest);
      var head := KeepLine(lines[0]);
      assert lines == [lines[0]] + rest;
      KeptLinesCons(lines[0], rest);
      if head != [] {
        KeptLineShape(lines[0]);
      }
    }
  }

  /** Every kept line is the normalisation of some input line, plus its newline. */
  lemma {:induction false} KeptLinesFromInput(lines: seq<string>)
    ensures forall k :: 0 <= k < |KeptLines(lines)| ==>
      exists i :: 0 <= i < |lines| && KeptLines(lines)[k] == Normalized(lines[i]) + [LF]
    decreases |lines|
  {
    if lines != [] {
      var rest := lines[1..];
      KeptLinesFromInput(rest);
      var head := KeepLine(lines[0]);
      var kept := KeptLines(lines);
      assert lines == [lines[0]] + rest;
      KeptLinesCons(lines[0], rest);
      forall k | 0 <= k < |kept|
        ensures exists i :: 0 <= i < |lines| && kept[k] == Normalized(lines[i]) + [LF]
      {
        if k < |head| {
          assert kept[k] == head[k] == Normalized(lines[0]) + [LF];
          assert 0 <= 0 < |lines| && kept[k] == Normalized(lines[0]) + [LF];
        } else {
          assert kept[k] == KeptLines(rest)[k - |head|];
          var i :| 0 <= i < |rest| && KeptLines(rest)[k - |head|] == Normalized(rest[i]) + [LF];
          assert rest[i] == lines[i + 1];
          assert 0 <= i + 1 < |lines| && kept[k] == Normalized(lines[i + 1]) + [LF];
        }
      }
    } else {
      assert KeptLines(lines) == [];
    }
  }

  /** A line that survives is a well-formed deck line once its newline is added. */
  lemma KeptLineShape(line: string)
    requires LF !in line && !AllBlank(Normalized(line))
    ensures IsDeckLine(Normalized(line) + [LF])
  {
    var n := Normalized(line);
    NormalizedShape(line);
    NormalizedBlankIsEmpty(line);
    NormalizedKeepsNoNewline(line);
    var t := n + [LF];
    assert t[..|t| - 1] == n;
  }

  /** Normalising a line that holds no newline yields a line that holds no newline. */
  lemma NormalizedKeepsNoNewline(s: string)
    requires LF !in s
    ensures LF !in Normalized(s)
  {
    var c := StripCr(s);
    assert forall k :: 0 <= k < |c| ==> c[k] == s[k];
    ReplaceNbspNoNewline(c);
    var m := ReplaceNbsp(c);
    var r := TrimRight(m);
    assert forall k :: 0 <= k < |r| ==> r[k] == m[k];
  }

  lemma {:induction false} ReplaceNbspNoNewline(s: string)
    requires LF !in s
    ensures LF !in ReplaceNbsp(s)
    decreases |s|
  {
    if |s| >= 2 {
      var t := if NbspAt(s, 0) then s[2..] else s[1..];
      assert forall k :: 0 <= k < |t| ==> t[k] == s[k + |s| - |t|];
      ReplaceNbspNoNewline(t);
    }
  }

  /**
   * Shape of the whole deck: it ends with the NULL terminator and nowhere
   * else, every line before it ends with a newline, and some line has `.end`.
   */
  lemma DeckShape(netlist: string)
    ensures var deck := DeckOf(netlist);
      && |deck| >= 2
      && deck[|deck| - 1] == Terminator
      && (forall k :: 0 <= k < |deck| - 1 ==> deck[k].Line? && |deck[k].text| > 0 && deck[k].text[|deck[k].text| - 1] == LF)
    ensures AnyDotEnd(DeckLines(netlist))
  {
    DeckLinesShape(netlist);
    CDeckOfDeckLines(DeckLines(netlist));
  }

  /** Converting well-formed deck lines gives a terminated array of well-formed lines. */
  lemma CDeckOfDeckLines(lines: seq<string>)
    requires |lines| >= 1
    requires forall k :: 0 <= k < |lines| ==> |lines[k]| > 0 && lines[k][|lines[k]| - 1] == LF
    ensures var deck := CDeck(lines);
      && |deck| >= 2
      && deck[|deck| - 1] == Terminator
      && (forall k :: 0 <= k < |deck| - 1 ==> deck[k].Line? && |deck[k].text| > 0 && deck[k].text[|deck[k].text| - 1] == LF)
  {
    CDeckShape(lines);
  }

  /** Every deck line is non-empty and ends with a newline, and some deck line has `.end`. */
  lemma DeckLinesShape(netlist: string)
    ensures var ls := DeckLines(netlist);
      && |ls| >= 1
      && (forall k :: 0 <= k < |ls| ==> |ls[k]| > 0 && ls[k][|ls[k]| - 1] == LF)
      && AnyDotEnd(ls)
  {
    LinesHaveNoNewline(netlist);
    KeptLinesShape(Lines(netlist));
    CompletedShape(KeptLines(Lines(netlist)));
  }

  /** Appending `.end` when it is missing keeps the lines well formed and supplies the `.end`. */
  lemma CompletedShape(kept: seq<string>)
    requires forall k :: 0 <= k < |kept| ==> IsDeckLine(kept[k])
    ensures var ls := if AnyDotEnd(kept) then kept else kept + [END_LINE];
      && |ls| >= 1
      && (forall k :: 0 <= k < |ls| ==> |ls[k]| > 0 && ls[k][|ls[k]| - 1] == LF)
      && AnyDotEnd(ls)
  {
    if !AnyDotEnd(kept) {
      var ls := kept + [END_LINE];
      assert DotEndAt(END_LINE, 0);
      assert ls[|ls| - 1] == END_LINE;
      forall k | 0 <= k < |ls| ensures |ls[k]| > 0 && ls[k][|ls[k]| - 1] == LF {
        if k < |kept| {
          assert ls[k] == kept[k] && IsDeckLine(kept[k]);
        }
      }
    } else {
      var k :| 0 <= k < |kept| && HasDotEnd(kept[k]);
      forall k | 0 <= k < |kept| ensures |kept[k]| > 0 && kept[k][|kept[k]| - 1] == LF {
        assert IsDeckLine(kept[k]);
      }
    }
  }

  /** An empty netlist becomes a deck holding only `.end`. */
  lemma EmptyNetlistDeck()
    ensures DeckOf("") == [Line(END_LINE), Terminator]
  {
    assert !AnyDotEnd([]);
  }

  /* ------------------------------------------------------------------ */
  /* analysisRequiresComplex                                             */
  /* ------------------------------------------------------------------ */

  /**
   * The command, with leading spaces and tabs dropped, starts with `ac` in
   * either case: position `k` is the first non-blank one and holds `a`, `c`.
   */
  predicate AcAt(cmd: string, k: int) {
    0 <= k && k + 1 < |cmd|
    && (forall j :: 0 <= j < k ==> IsBlank(cmd[j]))
    && ToLower(cmd[k]) == 'a' && ToLower(cmd[k + 1]) == 'c'
  }

  predicate IsAcCommand(cmd: string) {
    exists k | 0 <= k < |cmd| :: AcAt(cmd, k)
  }

  /**
   * `analysisRequiresComplex`: lowercases the command, skips leading blanks
   * and tests for the prefix `ac`. Only AC analyses store complex samples.
   */
  method AnalysisRequiresComplex(cmd: string) returns (complex: bool)
    ensures complex <==> IsAcCommand(cmd)
    ensures AllBlank(cmd) ==> !complex
  {
    var low := "";
    for j := 0 to |cmd|
      invariant |low| == j
      invariant forall k :: 0 <= k < j ==> low[k] == ToLower(cmd[k])
    {
      low := low + [ToLower(cmd[j])];
    }
    var start := 0;
    while start < |low| && IsBlank(low[start])
      invariant 0 <= start <= |low|
      invariant forall j :: 0 <= j < start ==> IsBlank(cmd[j])
    {
      start := start + 1;
    }
    // Only the first non-blank position can start the `ac` prefix.
    forall k | 0 <= k < |cmd| && k != start ensures !AcAt(cmd, k) {
      if k < start {
        assert IsBlank(ToLower(cmd[k]));
      } else {
        assert !IsBlank(cmd[start]);
      }
    }
    if start == |low| {
      return false;
    }
    ghost var lowered := low;
    low := low[start..];
    complex := |low| >= 2 && low[..2] == "ac";
    assert |low| >= 2 ==> low[0] == lowered[start] && low[1] == lowered[start + 1];
    assert complex <==> AcAt(cmd, start);
  }

  /** AC sweeps in any case and indentation are complex; operating point and transient are real. */
  lemma StridePolicyExamples()
    ensures IsAcCommand("ac dec 20 0.1 100meg")
    ensures IsAcCommand(" \tAC lin 10 1 1k")
    ensures !IsAcCommand("op")
    ensures !IsAcCommand("tran 0.1u 100u")
    ensures !IsAcCommand("")
  {
    assert AcAt("ac dec 20 0.1 100meg", 0);
    assert AcAt(" \tAC lin 10 1 1k", 2);
    assert !AcAt("op", 0);
    var tran := "tran 0.1u 100u";
    forall k | 0 <= k < |tran| ensures !AcAt(tran, k) {
      assert !IsBlank(tran[0]) && ToLower(tran[0]) != 'a';
    }
  }
}

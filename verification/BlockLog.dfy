/**
 * The parser's state machine on classified log lines, and what it computes on every
 * well-nested call tree.
 */
module LogScan {
  import opened Common

  /** What a log line is to the parser; `top` says the invocation is at depth one. */
  datatype Kind = Invoked(top: bool) | Succeeded | Failed(hex: Option<nat>) | Noted(anchor: Option<nat>)

  /** What the loop carries, or the code it returned. */
  datatype Scan = Found(code: nat) | Going(atTopLevel: bool, pending: Option<nat>)

  /** The codes of the generated error map. */
  predicate IsSigilError(code: nat) { 6000 <= code <= 6118 }

  function Later(anchor: Option<nat>, pending: Option<nat>): Option<nat> {
    if anchor.Some? then anchor else pending
  }

  /** The code a top-level failure stands for, given the last Anchor number before it. */
  function FailureCode(hex: Option<nat>, pending: Option<nat>): Option<nat> {
    if hex.Some? && IsSigilError(hex.value) then hex
    else if pending.Some? && IsSigilError(pending.value) then pending
    else None
  }

  function ScanOne(st: Scan, k: Kind): Scan {
    if st.Found? then st else
      match k
      case Invoked(top) => Going(top, None)
      case Succeeded => Going(false, None)
      case Failed(hex) =>
        if st.atTopLevel && FailureCode(hex, st.pending).Some? then Found(FailureCode(hex, st.pending).value)
        else Going(false, st.pending)
      case Noted(anchor) => if st.atTopLevel then Going(true, Later(anchor, st.pending)) else st
  }

  function ScanAll(st: Scan, ks: seq<Kind>): Scan {
    if ks == [] then st else ScanOne(ScanAll(st, ks[..|ks| - 1]), ks[|ks| - 1])
  }

  lemma {:induction false} FoundStays(code: nat, ks: seq<Kind>)
    ensures ScanAll(Found(code), ks) == Found(code)
  {
    if ks == [] {
    } else {
      FoundStays(code, ks[..|ks| - 1]);
    }
  }

  lemma {:induction false} ScanConcat(st: Scan, a: seq<Kind>, b: seq<Kind>)
    ensures ScanAll(st, a + b) == ScanAll(ScanAll(st, a), b)
  {
    if b == [] {
      assert a + b == a;
    } else {
      assert (a + b)[..|a + b| - 1] == a + b[..|b| - 1];
      ScanConcat(st, a, b[..|b| - 1]);
    }
  }

  lemma ScanSingle(st: Scan, k: Kind)
    ensures ScanAll(st, [k]) == ScanOne(st, k)
  {
    assert [k][..0] == [];
  }

  // ---- Call trees -------------------------------------------------------------------------

  /**
   * A call tree with only what the parser can see: for a frame, whether it is Sigil's own,
   * the Anchor numbers its first and last lines happen to contain, and how it ended.
   */
  datatype Tree =
    | Leaf
    | Note(anchor: Option<nat>, rest: Tree)
    | Node(own: bool, first: Option<nat>, inner: Tree, failed: bool, hex: Option<nat>, last: Option<nat>, rest: Tree)

  function Opening(t: Tree, depth: nat): Kind
    requires t.Node?
  {
    if t.own then Invoked(depth == 1) else Noted(t.first)
  }

  function Closing(t: Tree): Kind
    requires t.Node?
  {
    if !t.own then Noted(t.last) else if t.failed then Failed(t.hex) else Succeeded
  }

  /** The lines of a tree; `depth` is the nesting of the enclosing frame. */
  function Lines(t: Tree, depth: nat): seq<Kind> {
    match t
    case Leaf => []
    case Note(anchor, rest) => [Noted(anchor)] + Lines(rest, depth)
    case Node(_, _, inner, _, _, _, rest) =>
      [Opening(t, depth + 1)] + Lines(inner, depth + 1) + [Closing(t)] + Lines(rest, depth)
  }

  predicate HasOwn(t: Tree) {
    match t
    case Leaf => false
    case Note(_, rest) => HasOwn(rest)
    case Node(own, _, inner, _, _, _, rest) => own || HasOwn(inner) || HasOwn(rest)
  }

  /** The last Anchor number noted in a list of lines. */
  function LastAnchor(ks: seq<Kind>, pending: Option<nat>): Option<nat> {
    if ks == [] then pending else
      var k, before := ks[|ks| - 1], LastAnchor(ks[..|ks| - 1], pending);
      if k.Noted? then Later(k.anchor, before) else before
  }

  /**
   * The code a top-level frame is evidence of: it must be Sigil's own, have failed, and
   * not have re-entered Sigil; the hex of its failure line counts first, then the last
   * Anchor number logged inside it.
   */
  function FrameCode(t: Tree): Option<nat>
    requires t.Node?
  {
    if !t.own || !t.failed || HasOwn(t.inner) then None
    else FailureCode(t.hex, LastAnchor(Lines(t.inner, 1), None))
  }

  /** The first top-level frame that is evidence of a code. */
  function Answer(t: Tree): Option<nat> {
    match t
    case Leaf => None
    case Note(_, rest) => Answer(rest)
    case Node(_, _, _, _, _, _, rest) => if FrameCode(t).Some? then FrameCode(t) else Answer(rest)
  }

  // ---- The parser on trees ------------------------------------------------------------------

  /** The scan of a frame's own lines. */
  function ScanFrame(st: Scan, t: Tree, depth: nat): Scan
    requires t.Node?
  {
    ScanOne(ScanAll(ScanOne(st, Opening(t, depth)), Lines(t.inner, depth)), Closing(t))
  }

  lemma ScanNode(st: Scan, t: Tree, depth: nat)
    requires t.Node?
    ensures ScanAll(st, Lines(t, depth)) == ScanAll(ScanFrame(st, t, depth + 1), Lines(t.rest, depth))
  {
    var first, body, last := Opening(t, depth + 1), Lines(t.inner, depth + 1), Closing(t);
    ScanConcat(st, [first] + body + [last], Lines(t.rest, depth));
    ScanConcat(st, [first] + body, [last]);
    ScanConcat(st, [first], body);
    ScanSingle(st, first);
    ScanSingle(ScanAll(ScanOne(st, first), body), last);
  }

  lemma ScanNote(st: Scan, t: Tree, depth: nat)
    requires t.Note?
    ensures ScanAll(st, Lines(t, depth)) == ScanAll(ScanOne(st, Noted(t.anchor)), Lines(t.rest, depth))
  {
    ScanConcat(st, [Noted(t.anchor)], Lines(t.rest, depth));
    ScanSingle(st, Noted(t.anchor));
  }

  /** Inside nested frames, with Sigil not the top-level frame, nothing is ever found. */
  lemma {:induction false} NestedIgnored(t: Tree, depth: nat, pending: Option<nat>) returns (p: Option<nat>)
    requires depth >= 1
    ensures ScanAll(Going(false, pending), Lines(t, depth)) == Going(false, p)
    decreases t, 1
  {
    match t
    case Leaf => p := pending;
    case Note(_, rest) =>
      ScanNote(Going(false, pending), t, depth);
      p := NestedIgnored(rest, depth, pending);
    case Node(_, _, _, _, _, _, rest) =>
      ScanNode(Going(false, pending), t, depth);
      p := NestedFrame(t, depth + 1, pending);
      p := NestedIgnored(rest, depth, p);
  }

  lemma {:induction false} NestedFrame(t: Tree, depth: nat, pending: Option<nat>) returns (p: Option<nat>)
    requires t.Node? && depth >= 2
    ensures ScanFrame(Going(false, pending), t, depth) == Going(false, p)
    ensures t.own ==> forall st: Scan :: st.Going? ==> ScanFrame(st, t, depth) == Going(false, p)
    decreases t, 0
  {
    if t.own {
      p := NestedIgnored(t.inner, depth, None);
      p := if t.failed then p else None;
    } else {
      p := NestedIgnored(t.inner, depth, pending);
    }
  }

  lemma {:induction false} QuietLines(t: Tree, depth: nat)
    requires !HasOwn(t)
    ensures forall i :: 0 <= i < |Lines(t, depth)| ==> Lines(t, depth)[i].Noted?
  {
    match t
    case Leaf =>
    case Note(_, rest) => QuietLines(rest, depth);
    case Node(_, _, inner, _, _, _, rest) =>
      QuietLines(inner, depth + 1);
      QuietLines(rest, depth);
  }

  lemma {:induction false} ScanQuiet(ks: seq<Kind>, pending: Option<nat>)
    requires forall i :: 0 <= i < |ks| ==> ks[i].Noted?
    ensures ScanAll(Going(true, pending), ks) == Going(true, LastAnchor(ks, pending))
  {
    if ks == [] {
    } else {
      ScanQuiet(ks[..|ks| - 1], pending);
    }
  }

  /** Re-entering Sigil inside its own top-level frame makes the parser give that frame up. */
  lemma {:induction false} ReentryGivesUp(t: Tree, depth: nat, pending: Option<nat>) returns (p: Option<nat>)
    requires HasOwn(t) && depth >= 1
    ensures ScanAll(Going(true, pending), Lines(t, depth)) == Going(false, p)
  {
    if t.Note? {
      ScanNote(Going(true, pending), t, depth);
      p := ReentryGivesUp(t.rest, depth, Later(t.anchor, pending));
    } else {
      ScanNode(Going(true, pending), t, depth);
      if t.own {
        p := NestedFrame(t, depth + 1, None);
        p := NestedIgnored(t.rest, depth, p);
      } else if HasOwn(t.inner) {
        p := ReentryGivesUp(t.inner, depth + 1, Later(t.first, pending));
        p := NestedIgnored(t.rest, depth, p);
      } else {
        p := QuietFrame(t, depth + 1, pending);
        p := ReentryGivesUp(t.rest, depth, p);
      }
    }
  }

  lemma QuietFrame(t: Tree, depth: nat, pending: Option<nat>) returns (p: Option<nat>)
    requires t.Node? && !t.own && !HasOwn(t.inner)
    ensures ScanFrame(Going(true, pending), t, depth) == Going(true, p)
  {
    QuietLines(t.inner, depth);
    ScanQuiet(Lines(t.inner, depth), Later(t.first, pending));
    p := Later(t.last, LastAnchor(Lines(t.inner, depth), Later(t.first, pending)));
  }

  lemma TopLevelFrame(t: Tree, pending: Option<nat>) returns (p: Option<nat>)
    requires t.Node?
    ensures ScanFrame(Going(false, pending), t, 1)
            == if FrameCode(t).Some? then Found(FrameCode(t).value) else Going(false, p)
  {
    if !t.own {
      p := NestedIgnored(t.inner, 1, pending);
    } else if HasOwn(t.inner) {
      p := ReentryGivesUp(t.inner, 1, None);
      p := if t.failed then p else None;
    } else {
      QuietLines(t.inner, 1);
      ScanQuiet(Lines(t.inner, 1), None);
      p := if t.failed then LastAnchor(Lines(t.inner, 1), None) else None;
    }
  }

  /** Scanning a whole tree finds exactly its answer. */
  lemma {:induction false} ScanTree(t: Tree, pending: Option<nat>) returns (p: Option<nat>)
    ensures ScanAll(Going(false, pending), Lines(t, 0))
            == if Answer(t).Some? then Found(Answer(t).value) else Going(false, p)
  {
    match t
    case Leaf => p := pending;
    case Note(_, rest) =>
      ScanNote(Going(false, pending), t, 0);
      p := ScanTree(rest, pending);
    case Node(_, _, _, _, _, _, rest) =>
      ScanNode(Going(false, pending), t, 0);
      p := TopLevelFrame(t, pending);
      if FrameCode(t).Some? {
        FoundStays(FrameCode(t).value, Lines(rest, 0));
      } else {
        p := ScanTree(rest, p);
      }
  }
}

/**
 * `parseSigilBlockErrorCode`: which Sigil error, if any, a failed transaction's
 * program log is evidence of. Logs are printed from call trees and parsed back as text.
 */
module BlockLog {
  import opened Common
  import opened Numerals
  import opened Decimal
  import opened LogScan
  import Base58

  // ---- Matchers -----------------------------------------------------------------------

  /** Digit value in base 10 or 16, as `parseInt` reads it. */
  function DigitValue(base: nat, c: char): Option<nat> {
    if '0' <= c <= '9' then Some(c as int - '0' as int)
    else if base == 16 && 'a' <= c <= 'f' then Some(10 + c as int - 'a' as int)
    else if base == 16 && 'A' <= c <= 'F' then Some(10 + c as int - 'A' as int)
    else None
  }

  /** Length of the digit run a string starts with. */
  function Run(base: nat, s: string): (n: nat)
    ensures n <= |s|
    ensures forall i :: 0 <= i < n ==> DigitValue(base, s[i]).Some?
    ensures n < |s| ==> DigitValue(base, s[n]).None?
  {
    if s == [] || DigitValue(base, s[0]).None? then 0 else 1 + Run(base, s[1..])
  }

  function RunValue(base: nat, s: string): nat
    requires forall i :: 0 <= i < |s| ==> DigitValue(base, s[i]).Some?
  {
    Value(base, seq(|s|, i requires 0 <= i < |s| => DigitValue(base, s[i]).value))
  }

  /** A capture group of digits after `pattern` and before `close`, at the start of the line. */
  function MatchHere(line: string, pattern: string, base: nat, close: string): Option<nat> {
    if !(pattern <= line) then None else
      var rest := line[|pattern|..];
      var n := Run(base, rest);
      if n > 0 && close <= rest[n..] then Some(RunValue(base, rest[..n])) else None
  }

  /** The leftmost match, as `String.prototype.match` finds it. */
  function MatchFirst(line: string, pattern: string, base: nat, close: string): Option<nat> {
    if MatchHere(line, pattern, base, close).Some? then MatchHere(line, pattern, base, close)
    else if line == [] then None
    else MatchFirst(line[1..], pattern, base, close)
  }

  const INVOKE := "invoke ["
  const ERROR_NUMBER := "Error Number: "
  const CUSTOM_ERROR := "custom program error: 0x"

  function InvokeDepth(line: string): Option<nat> { MatchFirst(line, INVOKE, 10, "]") }
  function AnchorNumber(line: string): Option<nat> { MatchFirst(line, ERROR_NUMBER, 10, "") }
  function CustomError(line: string): Option<nat> { MatchFirst(line, CUSTOM_ERROR, 16, "") }

  // ---- The parser -----------------------------------------------------------------------

  function Headed(id: string, tail: string): string { "Program " + id + " " + tail }

  predicate IsInvoke(line: string, id: string) { Headed(id, "invoke [") <= line }
  predicate IsSuccess(line: string, id: string) { Headed(id, "success") <= line }
  predicate IsFailed(line: string, id: string) { Headed(id, "failed:") <= line }

  /** What a line is, in the order the loop tests it. */
  function Classify(line: string, id: string): Kind {
    if IsInvoke(line, id) then Invoked(InvokeDepth(line) == Some(1))
    else if IsSuccess(line, id) then Succeeded
    else if IsFailed(line, id) then Failed(CustomError(line))
    else Noted(AnchorNumber(line))
  }

  function ClassifyAll(lines: seq<string>, id: string): (ks: seq<Kind>) {
    Map(line => Classify(line, id), lines)
  }

  function Parse(lines: seq<string>, id: string): Option<nat> {
    var st := ScanAll(Going(false, None), ClassifyAll(lines, id));
    if st.Found? then Some(st.code) else None
  }

  method ParseBlockErrorCode(logs: seq<string>, id: string) returns (r: Option<nat>)
    ensures r == Parse(logs, id)
  {
    var atTopLevel, pending := false, None;
    for k := 0 to |logs|
      invariant ScanAll(Going(false, None), ClassifyAll(logs[..k], id)) == Going(atTopLevel, pending)
    {
      var log := logs[k];
      ScanNext(logs, k, id);
      if IsInvoke(log, id) {
        atTopLevel := InvokeDepth(log) == Some(1);
        pending := None;
        continue;
      }
      if IsSuccess(log, id) {
        atTopLevel := false;
        pending := None;
        continue;
      }
      if IsFailed(log, id) {
        var isTopLevel := atTopLevel;
        atTopLevel := false;
        if !isTopLevel {
          continue;
        }
        var hex := CustomError(log);
        if hex.Some? && IsSigilError(hex.value) {
          EndsAt(logs, k, id, hex.value);
          return hex;
        }
        if pending.Some? && IsSigilError(pending.value) {
          EndsAt(logs, k, id, pending.value);
          return pending;
        }
        continue;
      }
      if atTopLevel {
        var anchor := AnchorNumber(log);
        if anchor.Some? {
          pending := anchor;
        }
      }
    }
    assert logs[..|logs|] == logs;
    r := None;
  }

  lemma ScanNext(logs: seq<string>, k: nat, id: string)
    requires k < |logs|
    ensures ScanAll(Going(false, None), ClassifyAll(logs[..k + 1], id))
            == ScanOne(ScanAll(Going(false, None), ClassifyAll(logs[..k], id)), Classify(logs[k], id))
  {
    assert logs[..k + 1] == logs[..k] + [logs[k]];
    MapConcat(line => Classify(line, id), logs[..k], [logs[k]]);
    ScanConcat(Going(false, None), ClassifyAll(logs[..k], id), [Classify(logs[k], id)]);
    ScanSingle(ScanAll(Going(false, None), ClassifyAll(logs[..k], id)), Classify(logs[k], id));
  }

  lemma EndsAt(logs: seq<string>, k: nat, id: string, code: nat)
    requires k < |logs| && ScanAll(Going(false, None), ClassifyAll(logs[..k + 1], id)) == Found(code)
    ensures Parse(logs, id) == Some(code)
  {
    var before, after := ClassifyAll(logs[..k + 1], id), ClassifyAll(logs[k + 1..], id);
    assert logs == logs[..k + 1] + logs[k + 1..];
    MapConcat(line => Classify(line, id), logs[..k + 1], logs[k + 1..]);
    ScanConcat(Going(false, None), before, after);
    FoundStays(code, after);
  }

  // ---- Call traces ------------------------------------------------------------------------

  datatype Outcome = Success | Failure(reason: string)

  /** One program invocation. */
  datatype Frame = Frame(program: string, body: Body, outcome: Outcome)

  /** Lines and calls in the order they happened. A whole log is a body outside any frame. */
  datatype Body = End | Say(line: string, rest: Body) | Call(callee: Frame, rest: Body)

  function InvokeLine(program: string, depth: nat): string { Headed(program, "invoke [" + Dec(depth) + "]") }
  function SuccessLine(program: string): string { Headed(program, "success") }
  function FailedLine(program: string, reason: string): string { Headed(program, "failed: " + reason) }

  function LastLine(f: Frame): string {
    if f.outcome.Success? then SuccessLine(f.program) else FailedLine(f.program, f.outcome.reason)
  }

  /** The log the runtime writes; `depth` is the nesting of the enclosing frame. */
  function Print(b: Body, depth: nat): seq<string> {
    match b
    case End => []
    case Say(line, rest) => [line] + Print(rest, depth)
    case Call(f, rest) =>
      [InvokeLine(f.program, depth + 1)] + Print(f.body, depth + 1) + [LastLine(f)] + Print(rest, depth)
  }

  /** A program address: non-empty Base58 text. */
  predicate IsId(s: string) { s != "" && Base58.Valid(s) }

  /** A line that is not one of the runtime's frame lines for `id`. */
  predicate Inert(line: string, id: string) {
    !IsInvoke(line, id) && !IsSuccess(line, id) && !IsFailed(line, id)
  }

  /** Program names are addresses and free lines do not forge the runtime's lines for `id`. */
  predicate WellFormed(b: Body, id: string) {
    match b
    case End => true
    case Say(line, rest) => Inert(line, id) && WellFormed(rest, id)
    case Call(f, rest) => IsId(f.program) && WellFormed(f.body, id) && WellFormed(rest, id)
  }

  predicate Invokes(b: Body, id: string) {
    match b
    case End => false
    case Say(_, rest) => Invokes(rest, id)
    case Call(f, rest) => f.program == id || Invokes(f.body, id) || Invokes(rest, id)
  }

  /** What the parser can see of a trace. */
  function Shape(b: Body, depth: nat, id: string): Tree {
    match b
    case End => Leaf
    case Say(line, rest) => Note(AnchorNumber(line), Shape(rest, depth, id))
    case Call(f, rest) =>
      Node(f.program == id, AnchorNumber(InvokeLine(f.program, depth + 1)), Shape(f.body, depth + 1, id),
           f.outcome.Failure?, CustomError(LastLine(f)), AnchorNumber(LastLine(f)), Shape(rest, depth, id))
  }

  // ---- Reading lines back -----------------------------------------------------------------

  function FirstSpace(s: string): (n: nat)
    ensures n <= |s| && (forall i :: 0 <= i < n ==> s[i] != ' ') && (n < |s| ==> s[n] == ' ')
  {
    if s == [] || s[0] == ' ' then 0 else 1 + FirstSpace(s[1..])
  }

  lemma SpaceAfterId(id: string, tail: string)
    requires IsId(id)
    ensures FirstSpace(id + " " + tail) == |id|
  {
    var s := id + " " + tail;
    assert forall i :: 0 <= i < |id| ==> s[i] == id[i] && Base58.IndexOf(id[i]).Some?;
    assert s[|id|] == ' ';
  }

  lemma PrefixSpace(a: string, b: string)
    requires a <= b && FirstSpace(a) < |a|
    ensures FirstSpace(b) == FirstSpace(a)
  {
    assert forall i :: 0 <= i < |a| ==> a[i] == b[i];
  }

  lemma StripPrefix(p: string, a: string, b: string)
    ensures p + a <= p + b <==> a <= b
  {
    if p + a <= p + b {
      assert forall i :: 0 <= i < |a| ==> a[i] == (p + a)[|p| + i] && b[i] == (p + b)[|p| + i];
    }
    if a <= b {
      assert p + b == (p + a) + b[|a|..];
    }
  }

  /** Two headed lines agree on the program if one extends the other. */
  lemma HeadDetermines(id: string, x: string, program: string, y: string)
    requires IsId(id) && IsId(program)
    ensures Headed(id, x) <= Headed(program, y) <==> id == program && x <= y
  {
    var a, b := id + " " + x, program + " " + y;
    assert Headed(id, x) == "Program " + a && Headed(program, y) == "Program " + b;
    StripPrefix("Program ", a, b);
    SpaceAfterId(id, x);
    SpaceAfterId(program, y);
    if a <= b {
      PrefixSpace(a, b);
      assert id == a[..|id|] && program == b[..|id|];
    }
    if id == program {
      StripPrefix(id + " ", x, y);
    }
  }

  lemma OwnLines(id: string, depth: nat, reason: string)
    requires IsId(id)
    ensures IsInvoke(InvokeLine(id, depth), id)
    ensures IsSuccess(SuccessLine(id), id) && !IsInvoke(SuccessLine(id), id)
    ensures IsFailed(FailedLine(id, reason), id)
    ensures !IsInvoke(FailedLine(id, reason), id) && !IsSuccess(FailedLine(id, reason), id)
  {
    assert ("failed: " + reason)[0] == 'f' && "invoke ["[0] == 'i' && "success"[0] == 's';
    HeadDetermines(id, "invoke [", id, "invoke [" + Dec(depth) + "]");
    HeadDetermines(id, "success", id, "success");
    HeadDetermines(id, "invoke [", id, "success");
    HeadDetermines(id, "failed:", id, "failed: " + reason);
    HeadDetermines(id, "invoke [", id, "failed: " + reason);
    HeadDetermines(id, "success", id, "failed: " + reason);
  }

  /** The runtime's lines about another program are inert. */
  lemma OtherLinesInert(id: string, program: string, tail: string)
    requires IsId(id) && IsId(program) && program != id
    ensures Inert(Headed(program, tail), id)
  {
    HeadDetermines(id, "invoke [", program, tail);
    HeadDetermines(id, "success", program, tail);
    HeadDetermines(id, "failed:", program, tail);
  }

  /** Whatever a program logs, the line it appears on is inert. */
  lemma LoggedTextInert(id: string, text: string)
    requires IsId(id)
    ensures Inert("Program log: " + text, id)
  {
    forall x: string ensures !(Headed(id, x) <= "Program log: " + text) {
      var a, b := id + " " + x, "log: " + text;
      assert Headed(id, x) == "Program " + a && "Program log: " + text == "Program " + b;
      StripPrefix("Program ", a, b);
      SpaceAfterId(id, x);
      assert b[0] == 'l' && b[1] == 'o' && b[2] == 'g' && b[3] == ':' && b[4] == ' ';
      assert FirstSpace(b) == 4;
      assert Base58.IndexOf(b[3]).None?;
      if a <= b {
        PrefixSpace(a, b);
      }
    }
  }

  // ---- Numbers in lines -------------------------------------------------------------------

  lemma {:induction false} MatchSkips(line: string, k: nat, pattern: string, base: nat, close: string)
    requires k <= |line| && forall i :: 0 <= i < k ==> !(pattern <= line[i..])
    ensures MatchFirst(line, pattern, base, close) == MatchFirst(line[k..], pattern, base, close)
  {
    if k == 0 {
      assert line[0..] == line;
    } else {
      assert line[0..] == line && !(pattern <= line);
      forall i | 0 <= i < k - 1 ensures !(pattern <= line[1..][i..]) {
        assert line[1..][i..] == line[i + 1..];
      }
      MatchSkips(line[1..], k - 1, pattern, base, close);
      assert line[1..][k - 1..] == line[k..];
    }
  }

  lemma RunOf(base: nat, ds: string, rest: string)
    requires forall i :: 0 <= i < |ds| ==> DigitValue(base, ds[i]).Some?
    requires rest == "" || DigitValue(base, rest[0]).None?
    ensures Run(base, ds + rest) == |ds|
  {
    var s := ds + rest;
    assert forall i :: 0 <= i < |ds| ==> s[i] == ds[i];
    assert rest != "" ==> s[|ds|] == rest[0];
  }

  lemma MatchesNumber(pattern: string, ds: string, base: nat, close: string)
    requires ds != "" && forall i :: 0 <= i < |ds| ==> DigitValue(base, ds[i]).Some?
    requires close == "" || DigitValue(base, close[0]).None?
    ensures MatchFirst(pattern + ds + close, pattern, base, close) == Some(RunValue(base, ds))
  {
    var line := pattern + ds + close;
    assert line[..|pattern|] == pattern && line[|pattern|..] == ds + close;
    RunOf(base, ds, close);
    assert (ds + close)[|ds|..] == close && (ds + close)[..|ds|] == ds;
  }

  lemma NotHere(head: string, pattern: string, at: nat, tail: string, i: nat)
    requires at < |pattern| && i + at < |head| && head[i + at] != pattern[at]
    ensures !(pattern <= (head + tail)[i..])
  {
    assert (head + tail)[i..][at] == head[i + at];
  }

  lemma Assoc(a: string, b: string, c: string)
    ensures a + b + c == a + (b + c)
  {
  }

  lemma SkipsHead(head: string, pattern: string, at: nat, tail: string, base: nat, close: string)
    requires at < |pattern| && forall j :: 0 <= j < |head| + at ==> (head + pattern)[j] != pattern[at]
    ensures MatchFirst(head + pattern + tail, pattern, base, close) == MatchFirst(pattern + tail, pattern, base, close)
  {
    var line := head + pattern + tail;
    forall i | 0 <= i < |head| ensures !(pattern <= line[i..]) {
      NotHere(head + pattern, pattern, at, tail, i);
    }
    MatchSkips(line, |head|, pattern, base, close);
    assert line[|head|..] == pattern + tail;
  }

  /** A marked number is found wherever it stands, if a character of the pattern occurs nowhere before. */
  lemma FindsNumber(head: string, pattern: string, at: nat, ds: string, base: nat, close: string)
    requires at < |pattern| && forall j :: 0 <= j < |head| + at ==> (head + pattern)[j] != pattern[at]
    requires ds != "" && forall i :: 0 <= i < |ds| ==> DigitValue(base, ds[i]).Some?
    requires close == "" || DigitValue(base, close[0]).None?
    ensures MatchFirst(head + pattern + ds + close, pattern, base, close) == Some(RunValue(base, ds))
  {
    SkipsHead(head, pattern, at, ds + close, base, close);
    MatchesNumber(pattern, ds, base, close);
    Assoc(head + pattern, ds, close);
    Assoc(pattern, ds, close);
  }

  /** The printed depth is read back, although the line ends in text of its own. */
  lemma DepthReadBack(id: string, depth: nat)
    requires IsId(id)
    ensures InvokeDepth(InvokeLine(id, depth)) == Some(depth)
  {
    var head, ds := "Program " + id + " ", Dec(depth);
    forall j | 0 <= j < |head| + 7 ensures (head + INVOKE)[j] != INVOKE[7] {
      NoBracketBefore(id, j);
    }
    FindsNumber(head, INVOKE, 7, ds, 10, "]");
    assert InvokeLine(id, depth) == head + INVOKE + ds + "]";
    DecReadBack(depth);
  }

  lemma DecReadBack(n: nat)
    ensures RunValue(10, Dec(n)) == n
  {
    var s := Dec(n);
    ParseDec(n);
    assert seq(|s|, i requires 0 <= i < |s| => DigitValue(10, s[i]).value) == ToDigits(s);
  }

  lemma NoBracketBefore(id: string, j: nat)
    requires IsId(id) && j < |"Program " + id + " "| + 7
    ensures ("Program " + id + " " + INVOKE)[j] != '['
  {
    var line := "Program " + id + " " + INVOKE;
    if j < 8 {
      assert line[j] == "Program "[j];
    } else if j < 8 + |id| {
      assert line[j] == id[j - 8] && Base58.IndexOf(id[j - 8]).Some?;
    } else if j > 8 + |id| {
      assert line[j] == INVOKE[j - 9 - |id|];
    }
  }

  function HexChar(d: nat): (c: char)
    requires d < 16
    ensures DigitValue(16, c) == Some(d)
  {
    if d < 10 then '0' + d as char else 'a' + (d - 10) as char
  }

  function HexDigits(ds: seq<nat>): (s: string)
    requires InBase(16, ds)
    ensures |s| == |ds| && forall i :: 0 <= i < |s| ==> s[i] == HexChar(ds[i])
  {
    seq(|ds|, i requires 0 <= i < |ds| => HexChar(ds[i]))
  }

  /** The runtime's hexadecimal text of a custom error. */
  function Hex(n: nat): string {
    if n == 0 then "0" else HexDigits(Digits(16, n))
  }

  lemma HexReadBack(n: nat)
    ensures Hex(n) != "" && forall i :: 0 <= i < |Hex(n)| ==> DigitValue(16, Hex(n)[i]).Some?
    ensures RunValue(16, Hex(n)) == n
  {
    var s := Hex(n);
    var ds: seq<nat> := if n == 0 then [0] else Digits(16, n);
    assert n == 0 ==> Value(16, [0]) == 0 by {
      assert [0][..0] == [];
    }
    ValueOfDigits(16, n);
    assert |s| == |ds| && forall i :: 0 <= i < |s| ==> DigitValue(16, s[i]) == Some(ds[i]);
    assert seq(|s|, i requires 0 <= i < |s| => DigitValue(16, s[i]).value) == ds;
  }

  lemma NoZeroBefore(id: string, j: nat)
    requires IsId(id) && j < |Headed(id, "failed: ")| + 22
    ensures (Headed(id, "failed: ") + CUSTOM_ERROR)[j] != '0'
  {
    var line := Headed(id, "failed: ") + CUSTOM_ERROR;
    if j < 8 {
      assert line[j] == "Program "[j];
    } else if j < 8 + |id| {
      assert line[j] == id[j - 8] && Base58.IndexOf(id[j - 8]).Some?;
    } else if 9 + |id| <= j < 17 + |id| {
      assert line[j] == "failed: "[j - 9 - |id|];
    } else if j >= 17 + |id| {
      assert line[j] == CUSTOM_ERROR[j - 17 - |id|];
    }
  }

  /** The code in the runtime's failure line is read back for every program and every code. */
  lemma CodeReadBack(id: string, code: nat)
    requires IsId(id)
    ensures CustomError(FailedLine(id, CUSTOM_ERROR + Hex(code))) == Some(code)
  {
    var head, ds := Headed(id, "failed: "), Hex(code);
    forall j | 0 <= j < |head| + 22 ensures (head + CUSTOM_ERROR)[j] != CUSTOM_ERROR[22] {
      NoZeroBefore(id, j);
    }
    HexReadBack(code);
    FindsNumber(head, CUSTOM_ERROR, 22, ds, 16, "");
    assert head + CUSTOM_ERROR + ds + "" == head + CUSTOM_ERROR + ds;
    Assoc(head, CUSTOM_ERROR, ds);
    Assoc("Program " + id + " ", "failed: ", CUSTOM_ERROR + ds);
  }

  // ---- Main result ----------------------------------------------------------------------------

  /** The frame lines of a program other than `id` are inert. */
  lemma ForeignFrame(f: Frame, depth: nat, id: string)
    requires IsId(id) && IsId(f.program) && f.program != id
    ensures Classify(InvokeLine(f.program, depth), id) == Noted(AnchorNumber(InvokeLine(f.program, depth)))
    ensures Classify(LastLine(f), id) == Noted(AnchorNumber(LastLine(f)))
  {
    OtherLinesInert(id, f.program, "invoke [" + Dec(depth) + "]");
    OtherLinesInert(id, f.program, "success");
    if f.outcome.Failure? {
      OtherLinesInert(id, f.program, "failed: " + f.outcome.reason);
    }
  }

  lemma OwnFrame(f: Frame, depth: nat, id: string)
    requires IsId(id) && f.program == id
    ensures Classify(InvokeLine(f.program, depth), id) == Invoked(depth == 1)
    ensures Classify(LastLine(f), id) == if f.outcome.Failure? then Failed(CustomError(LastLine(f))) else Succeeded
  {
    OwnLines(id, depth, if f.outcome.Failure? then f.outcome.reason else "");
    DepthReadBack(id, depth);
  }

  lemma FrameLines(f: Frame, depth: nat, rest: Body, id: string)
    requires IsId(id) && IsId(f.program)
    ensures Classify(InvokeLine(f.program, depth + 1), id) == Opening(Shape(Call(f, rest), depth, id), depth + 1)
    ensures Classify(LastLine(f), id) == Closing(Shape(Call(f, rest), depth, id))
  {
    if f.program == id {
      OwnFrame(f, depth + 1, id);
    } else {
      ForeignFrame(f, depth + 1, id);
    }
  }

  lemma MapFrame<A, B>(f: A -> B, first: A, body: seq<A>, last: A, rest: seq<A>)
    ensures Map(f, [first] + body + [last] + rest) == [f(first)] + Map(f, body) + [f(last)] + Map(f, rest)
  {
    MapConcat(f, [first] + body + [last], rest);
    MapConcat(f, [first] + body, [last]);
    MapConcat(f, [first], body);
  }

  /** Classifying the printed body gives the lines of its shape. */
  predicate ReadsBack(b: Body, depth: nat, id: string) {
    ClassifyAll(Print(b, depth), id) == Lines(Shape(b, depth, id), depth)
  }

  lemma PrintedCall(f: Frame, rest: Body, depth: nat, id: string)
    requires IsId(id) && IsId(f.program)
    ensures ReadsBack(f.body, depth + 1, id) && ReadsBack(rest, depth, id) ==> ReadsBack(Call(f, rest), depth, id)
  {
    FrameLines(f, depth, rest, id);
    MapFrame(line => Classify(line, id), InvokeLine(f.program, depth + 1), Print(f.body, depth + 1),
             LastLine(f), Print(rest, depth));
  }

  lemma PrintedSay(line: string, rest: Body, depth: nat, id: string)
    requires Inert(line, id)
    ensures ReadsBack(rest, depth, id) ==> ReadsBack(Say(line, rest), depth, id)
  {
    MapConcat(line => Classify(line, id), [line], Print(rest, depth));
    assert Print(Say(line, rest), depth) == [line] + Print(rest, depth);
    assert ClassifyAll([line], id) == [Noted(AnchorNumber(line))];
  }

  /** Printing a trace and classifying its lines gives the lines of its shape. */
  lemma {:induction false} PrintedShape(b: Body, depth: nat, id: string)
    requires IsId(id) && WellFormed(b, id)
    ensures ReadsBack(b, depth, id)
    decreases b
  {
    match b
    case End =>
    case Say(line, rest) =>
      PrintedShape(rest, depth, id);
      PrintedSay(line, rest, depth, id);
    case Call(f, rest) =>
      PrintedShape(f.body, depth + 1, id);
      PrintedShape(rest, depth, id);
      PrintedCall(f, rest, depth, id);
  }

  /**
   * Parsing the log of any well-nested trace gives the code of the first top-level Sigil frame
   * that is evidence of one: the hex of its failure line if that is known, else the last Anchor
   * number printed inside it, by itself or by a program it called. Sigil frames below other
   * programs, and lines outside top-level Sigil frames, play no part.
   */
  lemma ParseRecoversFailingFrame(trace: Body, id: string)
    requires IsId(id) && WellFormed(trace, id)
    ensures Parse(Print(trace, 0), id) == Answer(Shape(trace, 0, id))
  {
    PrintedShape(trace, 0, id);
    var p := ScanTree(Shape(trace, 0, id), None);
  }

  lemma {:induction false} InvokesShows(b: Body, depth: nat, id: string)
    ensures HasOwn(Shape(b, depth, id)) <==> Invokes(b, id)
    decreases b
  {
    match b
    case End =>
    case Say(_, rest) => InvokesShows(rest, depth, id);
    case Call(f, rest) =>
      InvokesShows(f.body, depth + 1, id);
      InvokesShows(rest, depth, id);
  }

  /** A top-level Sigil failure with a known code is reported, whatever was logged inside or follows. */
  lemma BlockReported(body: Body, code: nat, rest: Body, id: string)
    requires IsId(id) && WellFormed(body, id) && WellFormed(rest, id) && !Invokes(body, id) && IsSigilError(code)
    ensures Parse(Print(Call(Frame(id, body, Failure(CUSTOM_ERROR + Hex(code))), rest), 0), id) == Some(code)
  {
    var f := Frame(id, body, Failure(CUSTOM_ERROR + Hex(code)));
    CodeReadBack(id, code);
    InvokesShows(body, 1, id);
    ParseRecoversFailingFrame(Call(f, rest), id);
    var t := Shape(Call(f, rest), 0, id);
    assert t.own && t.failed && t.hex == Some(code) && t.inner == Shape(body, 1, id);
    assert FrameCode(t) == Some(code);
  }
}

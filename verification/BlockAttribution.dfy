/**
 * Whose line a reported error code comes from. The hexadecimal code of the failure line is
 * the frame's own; the Anchor number used in its place is the last one logged anywhere
 * inside the frame, calls into other programs included.
 */
module BlockAttribution {
  import opened Common
  import opened Decimal
  import opened LogScan
  import opened BlockLog
  import Base58

  // ---- Frame trees without their calls ----------------------------------------------------

  /** The lines a frame logged itself. */
  function OwnTree(t: Tree): Tree {
    match t
    case Leaf => Leaf
    case Note(anchor, rest) => Note(anchor, OwnTree(rest))
    case Node(_, _, _, _, _, _, rest) => OwnTree(rest)
  }

  /** Some line carries an Anchor number. */
  predicate HasNumber(t: Tree) {
    match t
    case Leaf => false
    case Note(anchor, rest) => anchor.Some? || HasNumber(rest)
    case Node(_, first, inner, _, _, last, rest) => first.Some? || HasNumber(inner) || last.Some? || HasNumber(rest)
  }

  /** The last line that carries a number belongs to a nested call. */
  predicate LastNested(t: Tree) {
    match t
    case Leaf => false
    case Note(_, rest) => LastNested(rest)
    case Node(_, first, inner, _, _, last, rest) =>
      if HasNumber(rest) then LastNested(rest) else first.Some? || HasNumber(inner) || last.Some?
  }

  function LastNumber(t: Tree): Option<nat> { LastAnchor(Lines(t, 1), None) }

  predicate Known(code: Option<nat>) { code.Some? && IsSigilError(code.value) }

  function Verdict(code: Option<nat>): Option<nat> { if Known(code) then code else None }

  lemma {:induction false} LastAnchorConcat(a: seq<Kind>, b: seq<Kind>, pending: Option<nat>)
    ensures LastAnchor(a + b, pending) == LastAnchor(b, LastAnchor(a, pending))
  {
    if b == [] {
      assert a + b == a;
    } else {
      assert (a + b)[..|a + b| - 1] == a + b[..|b| - 1];
      LastAnchorConcat(a, b[..|b| - 1], pending);
    }
  }

  lemma LastAnchorOne(k: Kind, pending: Option<nat>)
    ensures LastAnchor([k], pending) == if k.Noted? then Later(k.anchor, pending) else pending
  {
    assert [k][..0] == [];
  }

  lemma LastOfNote(t: Tree, depth: nat, pending: Option<nat>)
    requires t.Note?
    ensures LastAnchor(Lines(t, depth), pending) == LastAnchor(Lines(t.rest, depth), Later(t.anchor, pending))
  {
    LastAnchorConcat([Noted(t.anchor)], Lines(t.rest, depth), pending);
    LastAnchorOne(Noted(t.anchor), pending);
  }

  lemma LastOfNode(t: Tree, depth: nat, pending: Option<nat>)
    requires t.Node? && !t.own
    ensures LastAnchor(Lines(t, depth), pending)
         == LastAnchor(Lines(t.rest, depth),
                       Later(t.last, LastAnchor(Lines(t.inner, depth + 1), Later(t.first, pending))))
  {
    var first, body, last := Noted(t.first), Lines(t.inner, depth + 1), Noted(t.last);
    LastAnchorConcat([first] + body + [last], Lines(t.rest, depth), pending);
    LastAnchorConcat([first] + body, [last], pending);
    LastAnchorConcat([first], body, pending);
    LastAnchorOne(first, pending);
    LastAnchorOne(last, LastAnchor([first] + body, pending));
  }

  /** Without numbers the pending one stands; with one it does not matter. */
  lemma {:induction false} PendingStands(t: Tree, depth: nat, p: Option<nat>, q: Option<nat>)
    requires !HasOwn(t)
    ensures !HasNumber(t) ==> LastAnchor(Lines(t, depth), p) == p
    ensures HasNumber(t) ==> LastAnchor(Lines(t, depth), p) == LastAnchor(Lines(t, depth), q)
    decreases t
  {
    match t
    case Leaf =>
    case Note(anchor, rest) =>
      LastOfNote(t, depth, p);
      LastOfNote(t, depth, q);
      PendingStands(rest, depth, Later(anchor, p), Later(anchor, q));
    case Node(_, first, inner, _, _, last, rest) =>
      LastOfNode(t, depth, p);
      LastOfNode(t, depth, q);
      PendingStands(inner, depth + 1, Later(first, p), Later(first, q));
      PendingStands(rest, depth, Later(last, LastAnchor(Lines(inner, depth + 1), Later(first, p))),
                    Later(last, LastAnchor(Lines(inner, depth + 1), Later(first, q))));
  }

  lemma {:induction false} SilentNotNested(t: Tree)
    requires !HasNumber(t)
    ensures !LastNested(t)
  {
    match t
    case Leaf =>
    case Note(_, rest) => SilentNotNested(rest);
    case Node(_, _, _, _, _, _, _) =>
  }

  /** If the last number is the frame's own, its calls can be dropped. */
  lemma {:induction false} OwnNumberKept(t: Tree, depth: nat, pending: Option<nat>)
    requires !HasOwn(t) && !LastNested(t)
    ensures LastAnchor(Lines(OwnTree(t), depth), pending) == LastAnchor(Lines(t, depth), pending)
    decreases t
  {
    match t
    case Leaf =>
    case Note(anchor, rest) =>
      LastOfNote(t, depth, pending);
      LastOfNote(OwnTree(t), depth, pending);
      OwnNumberKept(rest, depth, Later(anchor, pending));
    case Node(_, first, inner, _, _, last, rest) =>
      var before := Later(last, LastAnchor(Lines(inner, depth + 1), Later(first, pending)));
      LastOfNode(t, depth, pending);
      PendingStands(inner, depth + 1, Later(first, pending), pending);
      PendingStands(rest, depth, before, pending);
      if !HasNumber(rest) {
        SilentNotNested(rest);
      }
      OwnNumberKept(rest, depth, pending);
  }

  lemma {:induction false} OwnTreeCallsNothing(t: Tree)
    ensures !HasOwn(OwnTree(t))
  {
    match t
    case Leaf =>
    case Note(_, rest) => OwnTreeCallsNothing(rest);
    case Node(_, _, _, _, _, _, rest) => OwnTreeCallsNothing(rest);
  }

  function Bare(t: Tree): Tree
    requires t.Node?
  {
    t.(inner := OwnTree(t.inner))
  }

  /** Every top-level frame reduced to its own lines. */
  function StripTree(t: Tree): Tree {
    match t
    case Leaf => Leaf
    case Note(anchor, rest) => Note(anchor, StripTree(rest))
    case Node(_, _, _, _, _, _, rest) => Bare(t).(rest := StripTree(rest))
  }

  /** The frame decides alone: it did not re-enter Sigil, and its hex is known or its last number its own. */
  predicate DecidesAlone(t: Tree)
    requires t.Node?
  {
    t.own && t.failed ==> !HasOwn(t.inner) && (Known(t.hex) || !LastNested(t.inner))
  }

  lemma FrameWithoutCalls(t: Tree)
    requires t.Node? && DecidesAlone(t)
    ensures FrameCode(Bare(t)) == FrameCode(t)
  {
    OwnTreeCallsNothing(t.inner);
    if !HasOwn(t.inner) && !LastNested(t.inner) {
      OwnNumberKept(t.inner, 1, None);
    }
  }

  predicate AllDecideAlone(t: Tree) {
    match t
    case Leaf => true
    case Note(_, rest) => AllDecideAlone(rest)
    case Node(_, _, _, _, _, _, rest) => DecidesAlone(t) && AllDecideAlone(rest)
  }

  lemma {:induction false} StripKeepsAnswer(t: Tree)
    requires AllDecideAlone(t)
    ensures Answer(StripTree(t)) == Answer(t)
  {
    match t
    case Leaf =>
    case Note(_, rest) => StripKeepsAnswer(rest);
    case Node(_, _, _, _, _, _, rest) =>
      FrameWithoutCalls(t);
      assert FrameCode(StripTree(t)) == FrameCode(Bare(t));
      StripKeepsAnswer(rest);
  }

  // ---- Traces without their calls -----------------------------------------------------------

  function OwnBody(b: Body): Body {
    match b
    case End => End
    case Say(line, rest) => Say(line, OwnBody(rest))
    case Call(_, rest) => OwnBody(rest)
  }

  /** The trace with every call made inside a top-level frame removed. */
  function Strip(b: Body): Body {
    match b
    case End => End
    case Say(line, rest) => Say(line, Strip(rest))
    case Call(f, rest) => Call(Frame(f.program, OwnBody(f.body), f.outcome), Strip(rest))
  }

  lemma {:induction false} ShapeOwn(b: Body, depth: nat, id: string)
    ensures Shape(OwnBody(b), depth, id) == OwnTree(Shape(b, depth, id))
    ensures WellFormed(b, id) ==> WellFormed(OwnBody(b), id)
  {
    match b
    case End =>
    case Say(_, rest) => ShapeOwn(rest, depth, id);
    case Call(_, rest) => ShapeOwn(rest, depth, id);
  }

  lemma {:induction false} ShapeStrip(b: Body, id: string)
    ensures Shape(Strip(b), 0, id) == StripTree(Shape(b, 0, id))
    ensures WellFormed(b, id) ==> WellFormed(Strip(b), id)
  {
    match b
    case End =>
    case Say(_, rest) => ShapeStrip(rest, id);
    case Call(f, rest) =>
      ShapeStrip(rest, id);
      ShapeOwn(f.body, 1, id);
  }

  /**
   * Nested calls play no part wherever every failed top-level Sigil frame, without re-entry,
   * either has a known hex or logged its last number itself.
   */
  lemma NestedPlayNoPart(trace: Body, id: string)
    requires IsId(id) && WellFormed(trace, id)
    ensures AllDecideAlone(Shape(trace, 0, id)) ==> Parse(Print(trace, 0), id) == Parse(Print(Strip(trace), 0), id)
  {
    ShapeStrip(trace, id);
    ParseRecoversFailingFrame(trace, id);
    ParseRecoversFailingFrame(Strip(trace), id);
    if AllDecideAlone(Shape(trace, 0, id)) {
      StripKeepsAnswer(Shape(trace, 0, id));
    }
  }

  lemma OneFrame(f: Frame, id: string)
    requires IsId(id) && WellFormed(Call(f, End), id)
    ensures var trace := Call(f, End);
            && Parse(Print(trace, 0), id) == FrameCode(Shape(trace, 0, id))
            && Parse(Print(Strip(trace), 0), id) == FrameCode(Bare(Shape(trace, 0, id)))
  {
    var trace := Call(f, End);
    var t := Shape(trace, 0, id);
    ShapeStrip(trace, id);
    ParseRecoversFailingFrame(trace, id);
    ParseRecoversFailingFrame(Strip(trace), id);
    assert StripTree(t) == Bare(t) && Answer(t) == FrameCode(t) && Answer(Bare(t)) == FrameCode(Bare(t));
  }

  // ---- Numbers read back ----------------------------------------------------------------------

  lemma {:induction false} MatchLater(line: string, k: nat, pattern: string, base: nat, close: string)
    requires k <= |line| && forall i :: 0 <= i < k ==> MatchHere(line[i..], pattern, base, close).None?
    ensures MatchFirst(line, pattern, base, close) == MatchFirst(line[k..], pattern, base, close)
  {
    if k == 0 {
      assert line[0..] == line;
    } else {
      assert line[0..] == line && MatchHere(line[0..], pattern, base, close).None?;
      forall i | 0 <= i < k - 1 ensures MatchHere(line[1..][i..], pattern, base, close).None? {
        assert line[1..][i..] == line[i + 1..];
      }
      MatchLater(line[1..], k - 1, pattern, base, close);
      assert line[1..][k - 1..] == line[k..];
    }
  }

  function NumberLine(head: string, code: nat, tail: string): string {
    head + (ERROR_NUMBER + (Dec(code) + tail))
  }

  /** The first number of the line is the one after `head`, and it ends before `tail`. */
  predicate Marks(head: string, code: nat, tail: string) {
    && (tail == "" || !IsDigit(tail[0]))
    && forall i :: 0 <= i < |head| ==> MatchHere(NumberLine(head, code, tail)[i..], ERROR_NUMBER, 10, "").None?
  }

  lemma NumberHere(code: nat, tail: string)
    requires tail == "" || !IsDigit(tail[0])
    ensures MatchHere(ERROR_NUMBER + (Dec(code) + tail), ERROR_NUMBER, 10, "") == Some(code)
  {
    var ds := Dec(code);
    var line := ERROR_NUMBER + (ds + tail);
    assert line[|ERROR_NUMBER|..] == ds + tail;
    RunOf(10, ds, tail);
    assert (ds + tail)[..|ds|] == ds;
    DecReadBack(code);
  }

  /** A decimal code after the marker is read back, whatever surrounds it. */
  lemma AnchorReadBack(head: string, code: nat, tail: string)
    requires Marks(head, code, tail)
    ensures AnchorNumber(NumberLine(head, code, tail)) == Some(code)
  {
    var line := NumberLine(head, code, tail);
    MatchLater(line, |head|, ERROR_NUMBER, 10, "");
    assert line[|head|..] == ERROR_NUMBER + (Dec(code) + tail);
    NumberHere(code, tail);
  }

  lemma {:induction false} NoColonNoNumber(line: string)
    requires forall i :: 0 <= i < |line| ==> line[i] != ':'
    ensures AnchorNumber(line) == None
  {
    assert ERROR_NUMBER[12] == ':' && (|line| > 12 ==> line[12] != ERROR_NUMBER[12]);
    if line == "" {
    } else {
      NoColonNoNumber(line[1..]);
    }
  }

  // ---- The fallback ---------------------------------------------------------------------------

  /** One body after another. */
  function Then(a: Body, b: Body): Body {
    match a
    case End => b
    case Say(line, rest) => Say(line, Then(rest, b))
    case Call(f, rest) => Call(f, Then(rest, b))
  }

  lemma {:induction false} ThenFacts(a: Body, b: Body, id: string)
    ensures WellFormed(a, id) && WellFormed(b, id) ==> WellFormed(Then(a, b), id)
    ensures !Invokes(a, id) && !Invokes(b, id) ==> !Invokes(Then(a, b), id)
    decreases a
  {
    match a
    case End =>
    case Say(_, rest) => ThenFacts(rest, b, id);
    case Call(_, rest) => ThenFacts(rest, b, id);
  }

  lemma Regroup<T>(a: seq<T>, b: seq<T>, c: seq<T>)
    ensures a + (b + c) == a + b + c
  {
  }

  lemma {:induction false} ThenLines(a: Body, b: Body, depth: nat, id: string)
    ensures Lines(Shape(Then(a, b), depth, id), depth)
         == Lines(Shape(a, depth, id), depth) + Lines(Shape(b, depth, id), depth)
    decreases a
  {
    var t, bs := Shape(a, depth, id), Lines(Shape(b, depth, id), depth);
    match a
    case End => assert [] + bs == bs;
    case Say(_, rest) =>
      ThenLines(rest, b, depth, id);
      Regroup([Noted(t.anchor)], Lines(t.rest, depth), bs);
    case Call(_, rest) =>
      ThenLines(rest, b, depth, id);
      Regroup([Opening(t, depth + 1)] + Lines(t.inner, depth + 1) + [Closing(t)], Lines(t.rest, depth), bs);
  }

  /** The last number of a body that ends in a numbered line and then silence. */
  lemma LastNumberOf(pre: Body, line: string, post: Body, id: string)
    requires !Invokes(post, id) && !HasNumber(Shape(post, 1, id)) && AnchorNumber(line).Some?
    ensures LastNumber(Shape(Then(pre, Say(line, post)), 1, id)) == AnchorNumber(line)
  {
    var t := Shape(Say(line, post), 1, id);
    ThenLines(pre, Say(line, post), 1, id);
    LastAnchorConcat(Lines(Shape(pre, 1, id), 1), Lines(t, 1), None);
    var before := LastAnchor(Lines(Shape(pre, 1, id), 1), None);
    LastOfNote(t, 1, before);
    InvokesShows(post, 1, id);
    PendingStands(Shape(post, 1, id), 1, AnchorNumber(line), None);
  }

  /**
   * A top-level failure without a known hex is reported by the last number printed in its
   * frame, whatever precedes it, surrounds it on its line, or follows the frame.
   */
  lemma FallbackReported(
    pre: Body, head: string, code: nat, tail: string, post: Body, reason: string, rest: Body, id: string)
    requires IsId(id) && WellFormed(pre, id) && WellFormed(post, id) && WellFormed(rest, id)
    requires !Invokes(pre, id) && !Invokes(post, id) && !HasNumber(Shape(post, 1, id))
    requires Marks(head, code, tail) && Inert(NumberLine(head, code, tail), id) && IsSigilError(code)
    requires !Known(CustomError(FailedLine(id, reason)))
    ensures var body := Then(pre, Say(NumberLine(head, code, tail), post));
            Parse(Print(Call(Frame(id, body, Failure(reason)), rest), 0), id) == Some(code)
  {
    var line := NumberLine(head, code, tail);
    var body := Then(pre, Say(line, post));
    AnchorReadBack(head, code, tail);
    ThenFacts(pre, Say(line, post), id);
    LastNumberOf(pre, line, post, id);
    InvokesShows(body, 1, id);
    var trace := Call(Frame(id, body, Failure(reason)), rest);
    ParseRecoversFailingFrame(trace, id);
    var t := Shape(trace, 0, id);
    assert t.own && t.failed && t.inner == Shape(body, 1, id) && t.hex == CustomError(FailedLine(id, reason));
    assert FrameCode(t) == Some(code);
  }

  // ---- A nested number taken for the frame's own -------------------------------------------------

  /** A call of another program that logs one line and succeeds. */
  function Logging(other: string, line: string): Body {
    Call(Frame(other, Say(line, End), Success), End)
  }

  /** A Sigil frame that failed with an unknown hex after another program succeeded in it. */
  function Borrowed(id: string, other: string, code: nat): Frame {
    Frame(id, Logging(other, NumberLine("Program log: ", code, "")), Failure(CUSTOM_ERROR + Hex(1)))
  }

  lemma LoggingNumber(other: string, line: string, id: string)
    requires other != id && AnchorNumber(line).Some? && AnchorNumber(SuccessLine(other)) == None
    ensures LastNumber(Shape(Logging(other, line), 1, id)) == AnchorNumber(line)
  {
    var t := Shape(Logging(other, line), 1, id);
    var inner := Shape(Say(line, End), 2, id);
    assert Shape(End, 1, id) == Leaf && Shape(End, 2, id) == Leaf;
    assert t.Node? && !t.own && t.inner == inner && t.last == None && t.rest == Leaf;
    assert inner == Note(AnchorNumber(line), Leaf);
    LastOfNode(t, 1, None);
    LastOfNote(inner, 2, Later(t.first, None));
  }

  lemma LoggingWellFormed(other: string, line: string, id: string)
    requires IsId(other) && other != id && Inert(line, id)
    ensures WellFormed(Logging(other, line), id) && !Invokes(Logging(other, line), id)
  {
    assert WellFormed(Say(line, End), id) && !Invokes(Say(line, End), id);
  }

  lemma LogLineMarks(code: nat)
    ensures Marks("Program log: ", code, "")
  {
    var head := "Program log: ";
    var line := NumberLine(head, code, "");
    forall i | 0 <= i < |head| ensures MatchHere(line[i..], ERROR_NUMBER, 10, "").None? {
      assert line[i..][0] == head[i] && ERROR_NUMBER[0] == 'E' && head[i] != 'E';
    }
  }

  lemma NoColonInId(other: string)
    requires IsId(other)
    ensures forall i :: 0 <= i < |SuccessLine(other)| ==> SuccessLine(other)[i] != ':'
  {
    var line := SuccessLine(other);
    forall i | 0 <= i < |line| ensures line[i] != ':' {
      if 8 <= i < 8 + |other| {
        assert line[i] == other[i - 8] && Base58.IndexOf(other[i - 8]).Some?;
      } else if i < 8 {
        assert line[i] == "Program "[i];
      } else if i > 8 + |other| {
        assert line[i] == "success"[i - 9 - |other|];
      }
    }
  }

  /**
   * The code reported can come from a nested call: another program's line inside the failed
   * frame is reported, where the frame's own lines give no code at all.
   */
  lemma NestedNumberTaken(id: string, other: string, code: nat)
    requires IsId(id) && IsId(other) && other != id && IsSigilError(code)
    ensures var trace := Call(Borrowed(id, other, code), End);
            && WellFormed(trace, id)
            && Parse(Print(trace, 0), id) == Some(code) && Parse(Print(Strip(trace), 0), id) == None
  {
    var line := NumberLine("Program log: ", code, "");
    LoggedTextInert(id, ERROR_NUMBER + (Dec(code) + ""));
    LoggingWellFormed(other, line, id);
    LogLineMarks(code);
    AnchorReadBack("Program log: ", code, "");
    NoColonInId(other);
    NoColonNoNumber(SuccessLine(other));
    LoggingNumber(other, line, id);
    FailedFrameCode(Borrowed(id, other, code), id);
    assert LastNumber(Leaf) == None;
  }

  /** The codes with and without its calls of a frame that failed with an unknown hex. */
  lemma FailedFrameCode(f: Frame, id: string)
    requires IsId(id) && f.program == id && f.outcome == Failure(CUSTOM_ERROR + Hex(1)) && !Invokes(f.body, id)
    requires WellFormed(Call(f, End), id)
    ensures Parse(Print(Call(f, End), 0), id) == Verdict(LastNumber(Shape(f.body, 1, id)))
    ensures Parse(Print(Strip(Call(f, End)), 0), id) == Verdict(LastNumber(OwnTree(Shape(f.body, 1, id))))
  {
    var trace := Call(f, End);
    var t := Shape(trace, 0, id);
    CodeReadBack(id, 1);
    InvokesShows(f.body, 1, id);
    OwnTreeCallsNothing(t.inner);
    OneFrame(f, id);
    assert t.own && t.failed && t.hex == Some(1) && t.inner == Shape(f.body, 1, id);
  }
}

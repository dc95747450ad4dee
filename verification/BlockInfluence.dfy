/**
 * Which logs let a nested call choose the reported code. Two traces are variants of each other
 * if they differ only in what the calls made inside top-level frames did and logged.
 */
module BlockInfluence {
  import opened Common
  import opened Decimal
  import opened LogScan
  import opened BlockLog
  import opened BlockAttribution

  // ---- What a frame logged itself -------------------------------------------------------------

  /** The frame itself logged a numbered line. */
  predicate OwnNumber(t: Tree) {
    match t
    case Leaf => false
    case Note(anchor, rest) => anchor.Some? || OwnNumber(rest)
    case Node(_, _, _, _, _, _, rest) => OwnNumber(rest)
  }

  /** A call follows the last numbered line of the frame itself; any call does where it has none. */
  predicate CallFollows(t: Tree) {
    match t
    case Leaf => false
    case Note(_, rest) => CallFollows(rest)
    case Node(_, _, _, _, _, _, rest) => !OwnNumber(rest) || CallFollows(rest)
  }

  /** The same own lines, with calls in the same places. */
  predicate SameOwn(t: Tree, u: Tree) {
    match t
    case Leaf => u.Leaf?
    case Note(anchor, rest) => u.Note? && u.anchor == anchor && SameOwn(rest, u.rest)
    case Node(_, _, _, _, _, _, rest) => u.Node? && SameOwn(rest, u.rest)
  }

  lemma {:induction false} OwnNumberShows(t: Tree)
    requires OwnNumber(t)
    ensures HasNumber(t)
  {
    match t
    case Note(anchor, rest) =>
      if anchor.None? {
        OwnNumberShows(rest);
      }
    case Node(_, _, _, _, _, _, rest) => OwnNumberShows(rest);
  }

  /** Where no call follows the last own number, what the calls logged does not matter. */
  lemma {:induction false} CallsIrrelevant(t: Tree, u: Tree, depth: nat, pending: Option<nat>)
    requires SameOwn(t, u) && !HasOwn(t) && !HasOwn(u) && !CallFollows(t)
    ensures LastAnchor(Lines(t, depth), pending) == LastAnchor(Lines(u, depth), pending)
    decreases t
  {
    match t
    case Leaf =>
    case Note(anchor, rest) =>
      LastOfNote(t, depth, pending);
      LastOfNote(u, depth, pending);
      CallsIrrelevant(rest, u.rest, depth, Later(anchor, pending));
    case Node(_, first, inner, _, _, last, rest) =>
      var p := Later(last, LastAnchor(Lines(inner, depth + 1), Later(first, pending)));
      var q := Later(u.last, LastAnchor(Lines(u.inner, depth + 1), Later(u.first, pending)));
      LastOfNode(t, depth, pending);
      LastOfNode(u, depth, pending);
      OwnNumberShows(rest);
      PendingStands(rest, depth, p, q);
      CallsIrrelevant(rest, u.rest, depth, q);
  }

  // ---- Frames and whole logs ------------------------------------------------------------------

  /** A failed Sigil frame without a known hex in which a call follows its own last numbered line. */
  predicate Exposed(t: Tree)
    requires t.Node?
  {
    t.own && t.failed && !Known(t.hex) && CallFollows(t.inner)
  }

  /** No top-level frame up to the first that has a code is exposed. */
  predicate Guarded(t: Tree) {
    match t
    case Leaf => true
    case Note(_, rest) => Guarded(rest)
    case Node(_, _, _, _, _, _, rest) => !Exposed(t) && (FrameCode(t).Some? || Guarded(rest))
  }

  /** No top-level Sigil frame re-enters Sigil. */
  predicate NoReentry(t: Tree) {
    match t
    case Leaf => true
    case Note(_, rest) => NoReentry(rest)
    case Node(own, _, inner, _, _, _, rest) => (own ==> !HasOwn(inner)) && NoReentry(rest)
  }

  predicate VariantTree(t: Tree, u: Tree) {
    match t
    case Leaf => u.Leaf?
    case Note(anchor, rest) => u.Note? && VariantTree(rest, u.rest)
    case Node(own, _, inner, failed, hex, _, rest) =>
      && u.Node? && u.own == own && u.failed == failed && u.hex == hex && SameOwn(inner, u.inner)
      && VariantTree(rest, u.rest)
  }

  lemma UnexposedCode(t: Tree, u: Tree)
    requires t.Node? && u.Node? && VariantTree(t, u) && NoReentry(t) && NoReentry(u) && !Exposed(t)
    ensures FrameCode(t) == FrameCode(u)
  {
    if t.own && t.failed && !Known(t.hex) {
      CallsIrrelevant(t.inner, u.inner, 1, None);
    }
  }

  lemma {:induction false} GuardedAnswer(t: Tree, u: Tree)
    requires VariantTree(t, u) && NoReentry(t) && NoReentry(u) && Guarded(t)
    ensures Answer(t) == Answer(u)
  {
    match t
    case Leaf =>
    case Note(_, rest) => GuardedAnswer(rest, u.rest);
    case Node(_, _, _, _, _, _, rest) =>
      UnexposedCode(t, u);
      if FrameCode(t).None? {
        GuardedAnswer(rest, u.rest);
      }
  }

  // ---- Variants of traces ---------------------------------------------------------------------

  /** The same own lines, with calls in the same places. */
  predicate SameOwnLines(b: Body, d: Body) {
    match b
    case End => d.End?
    case Say(line, rest) => d.Say? && d.line == line && SameOwnLines(rest, d.rest)
    case Call(_, rest) => d.Call? && SameOwnLines(rest, d.rest)
  }

  /** The same log but for what calls inside top-level frames did. */
  predicate Variant(b: Body, d: Body) {
    match b
    case End => d.End?
    case Say(line, rest) => d.Say? && d.line == line && Variant(rest, d.rest)
    case Call(f, rest) =>
      && d.Call? && d.callee.program == f.program && d.callee.outcome == f.outcome
      && SameOwnLines(f.body, d.callee.body) && Variant(rest, d.rest)
  }

  lemma {:induction false} SameOwnShapes(b: Body, d: Body, depth: nat, id: string)
    requires SameOwnLines(b, d)
    ensures SameOwn(Shape(b, depth, id), Shape(d, depth, id))
  {
    match b
    case End =>
    case Say(_, rest) => SameOwnShapes(rest, d.rest, depth, id);
    case Call(_, rest) => SameOwnShapes(rest, d.rest, depth, id);
  }

  lemma {:induction false} VariantShapes(b: Body, d: Body, id: string)
    requires Variant(b, d)
    ensures VariantTree(Shape(b, 0, id), Shape(d, 0, id))
  {
    match b
    case End =>
    case Say(_, rest) => VariantShapes(rest, d.rest, id);
    case Call(f, rest) =>
      VariantShapes(rest, d.rest, id);
      SameOwnShapes(f.body, d.callee.body, 1, id);
  }

  // ---- A call that chooses the code -----------------------------------------------------------

  function Planted(code: nat): string { NumberLine("Program log: ", code, "") }

  /** Every call made in the frame logs the number and succeeds. */
  function Plant(b: Body, code: nat): Body {
    match b
    case End => End
    case Say(line, rest) => Say(line, Plant(rest, code))
    case Call(f, rest) => Call(Frame(f.program, Say(Planted(code), End), Success), Plant(rest, code))
  }

  lemma {:induction false} PlantFits(b: Body, code: nat, id: string)
    requires IsId(id) && WellFormed(b, id) && !Invokes(b, id)
    ensures SameOwnLines(b, Plant(b, code)) && WellFormed(Plant(b, code), id) && !Invokes(Plant(b, code), id)
  {
    match b
    case End =>
    case Say(_, rest) => PlantFits(rest, code, id);
    case Call(f, rest) =>
      PlantFits(rest, code, id);
      LoggedTextInert(id, ERROR_NUMBER + (Dec(code) + ""));
      LoggingWellFormed(f.program, Planted(code), id);
  }

  lemma PlantedNumbers(program: string, code: nat)
    requires IsId(program)
    ensures AnchorNumber(Planted(code)) == Some(code) && AnchorNumber(SuccessLine(program)).None?
  {
    LogLineMarks(code);
    AnchorReadBack("Program log: ", code, "");
    NoColonInId(program);
    NoColonNoNumber(SuccessLine(program));
  }

  lemma LastOfPlanted(t: Tree, code: nat, depth: nat, pending: Option<nat>)
    requires t.Node? && !t.own && t.inner == Note(Some(code), Leaf) && t.last.None?
    ensures LastAnchor(Lines(t, depth), pending) == LastAnchor(Lines(t.rest, depth), Some(code))
  {
    LastOfNode(t, depth, pending);
    LastOfNote(t.inner, depth + 1, Later(t.first, pending));
  }

  lemma PlantedCall(f: Frame, rest: Body, code: nat, depth: nat, id: string, pending: Option<nat>)
    requires IsId(f.program) && f.program != id
    ensures LastAnchor(Lines(Shape(Plant(Call(f, rest), code), depth, id), depth), pending)
            == LastAnchor(Lines(Shape(Plant(rest, code), depth, id), depth), Some(code))
  {
    PlantedNumbers(f.program, code);
    var planted := Frame(f.program, Say(Planted(code), End), Success);
    assert Shape(Say(Planted(code), End), depth + 1, id) == Note(Some(code), Leaf);
    assert LastLine(planted) == SuccessLine(f.program);
    LastOfPlanted(Shape(Call(planted, Plant(rest, code)), depth, id), code, depth, pending);
  }

  lemma {:induction false} PlantedStands(b: Body, code: nat, depth: nat, id: string)
    requires IsId(id) && WellFormed(b, id) && !Invokes(b, id) && !OwnNumber(Shape(b, depth, id))
    ensures LastAnchor(Lines(Shape(Plant(b, code), depth, id), depth), Some(code)) == Some(code)
  {
    match b
    case End =>
    case Say(line, rest) =>
      PlantedStands(rest, code, depth, id);
      LastOfNote(Shape(Plant(b, code), depth, id), depth, Some(code));
    case Call(f, rest) =>
      PlantedCall(f, rest, code, depth, id, Some(code));
      PlantedStands(rest, code, depth, id);
  }

  /** Where a call follows the last own number, the planted number is the last one. */
  lemma {:induction false} PlantedLast(b: Body, code: nat, depth: nat, id: string, pending: Option<nat>)
    requires IsId(id) && WellFormed(b, id) && !Invokes(b, id) && CallFollows(Shape(b, depth, id))
    ensures LastAnchor(Lines(Shape(Plant(b, code), depth, id), depth), pending) == Some(code)
    decreases b
  {
    match b
    case Say(line, rest) =>
      LastOfNote(Shape(Plant(b, code), depth, id), depth, pending);
      PlantedLast(rest, code, depth, id, Later(AnchorNumber(line), pending));
    case Call(f, rest) =>
      PlantedCall(f, rest, code, depth, id, pending);
      if CallFollows(Shape(rest, depth, id)) {
        PlantedLast(rest, code, depth, id, Some(code));
      } else {
        PlantedStands(rest, code, depth, id);
      }
  }

  /** The number planted in the first exposed frame. */
  function PlantFirst(b: Body, code: nat, id: string): Body {
    match b
    case End => End
    case Say(line, rest) => Say(line, PlantFirst(rest, code, id))
    case Call(f, rest) =>
      if Exposed(Shape(b, 0, id)) then Call(Frame(f.program, Plant(f.body, code), f.outcome), rest)
      else Call(f, PlantFirst(rest, code, id))
  }

  lemma {:induction false} SameAsItself(b: Body)
    ensures SameOwnLines(b, b)
  {
    match b
    case End =>
    case Say(_, rest) => SameAsItself(rest);
    case Call(_, rest) => SameAsItself(rest);
  }

  lemma {:induction false} VariantOfItself(b: Body)
    ensures Variant(b, b)
  {
    match b
    case End =>
    case Say(_, rest) => VariantOfItself(rest);
    case Call(f, rest) =>
      VariantOfItself(rest);
      SameAsItself(f.body);
  }

  lemma PlantedFrame(f: Frame, rest: Body, code: nat, id: string)
    requires IsId(id) && WellFormed(f.body, id) && !Invokes(f.body, id) && IsSigilError(code)
    requires Exposed(Shape(Call(f, rest), 0, id))
    ensures var d := Call(Frame(f.program, Plant(f.body, code), f.outcome), rest);
            FrameCode(Shape(d, 0, id)) == Some(code) && !Invokes(Plant(f.body, code), id)
  {
    var d := Call(Frame(f.program, Plant(f.body, code), f.outcome), rest);
    var t := Shape(d, 0, id);
    PlantFits(f.body, code, id);
    InvokesShows(Plant(f.body, code), 1, id);
    PlantedLast(f.body, code, 1, id, None);
    assert t.own && t.failed && !Known(t.hex) && t.inner == Shape(Plant(f.body, code), 1, id);
  }

  lemma {:induction false} PlantFirstFits(b: Body, code: nat, id: string)
    requires IsId(id) && WellFormed(b, id) && NoReentry(Shape(b, 0, id)) && IsSigilError(code)
    ensures Variant(b, PlantFirst(b, code, id)) && WellFormed(PlantFirst(b, code, id), id)
    ensures NoReentry(Shape(PlantFirst(b, code, id), 0, id))
    ensures !Guarded(Shape(b, 0, id)) ==> Answer(Shape(PlantFirst(b, code, id), 0, id)) == Some(code)
  {
    match b
    case End =>
    case Say(_, rest) => PlantFirstFits(rest, code, id);
    case Call(f, rest) =>
      InvokesShows(f.body, 1, id);
      if Exposed(Shape(b, 0, id)) {
        PlantFits(f.body, code, id);
        PlantedFrame(f, rest, code, id);
        InvokesShows(Plant(f.body, code), 1, id);
        VariantOfItself(rest);
      } else {
        PlantFirstFits(rest, code, id);
        SameAsItself(f.body);
        assert FrameCode(Shape(Call(f, PlantFirst(rest, code, id)), 0, id)) == FrameCode(Shape(b, 0, id));
      }
  }

  // ---- The exact condition --------------------------------------------------------------------

  /** The answer is the same for every variant in which Sigil is not re-entered. */
  ghost predicate Settled(trace: Body, id: string) {
    forall other: Body :: Variant(trace, other) && WellFormed(other, id) && NoReentry(Shape(other, 0, id)) ==>
      Parse(Print(other, 0), id) == Parse(Print(trace, 0), id)
  }

  /**
   * For every well-nested trace without re-entry, nested calls have no say in the answer if and
   * only if no top-level frame up to the first that has a code is a failed Sigil frame without a
   * known hex in which a call follows its own last numbered line.
   */
  lemma SettledExactly(trace: Body, id: string)
    requires IsId(id) && WellFormed(trace, id) && NoReentry(Shape(trace, 0, id))
    ensures Settled(trace, id) <==> Guarded(Shape(trace, 0, id))
  {
    ParseRecoversFailingFrame(trace, id);
    if Guarded(Shape(trace, 0, id)) {
      forall other: Body | Variant(trace, other) && WellFormed(other, id) && NoReentry(Shape(other, 0, id))
        ensures Parse(Print(other, 0), id) == Parse(Print(trace, 0), id)
      {
        VariantShapes(trace, other, id);
        ParseRecoversFailingFrame(other, id);
        GuardedAnswer(Shape(trace, 0, id), Shape(other, 0, id));
      }
    } else {
      var code := if Answer(Shape(trace, 0, id)) == Some(6000) then 6001 else 6000;
      var other := PlantFirst(trace, code, id);
      PlantFirstFits(trace, code, id);
      ParseRecoversFailingFrame(other, id);
      assert Parse(Print(other, 0), id) != Parse(Print(trace, 0), id);
    }
  }

  /** For one failed Sigil frame: its hex is known, or no call follows its own last numbered line. */
  lemma FrameSettledExactly(f: Frame, id: string)
    requires IsId(id) && f.program == id && f.outcome.Failure? && WellFormed(f.body, id) && !Invokes(f.body, id)
    ensures Settled(Call(f, End), id) <==> Known(CustomError(LastLine(f))) || !CallFollows(Shape(f.body, 1, id))
  {
    var t := Shape(Call(f, End), 0, id);
    InvokesShows(f.body, 1, id);
    assert Shape(End, 0, id) == Leaf && t == Node(t.own, t.first, t.inner, t.failed, t.hex, t.last, Leaf);
    SettledExactly(Call(f, End), id);
  }
}

/** Numbers and strings as operands.

The dialogs for numbers and strings put pieces of text into the fields of a node of their
own and come back to it. So they are operands of the expressions they stand in; the pieces
of a string are joined from the left.
*/
module Literals {
  import opened Arguments
  import opened CursorFrame
  import opened ParseTree
  import opened Precedence
  import opened Wrappers

  // ----- numbers

  /** A field of a node that nothing is around. */
  function InField(node: Tree, field: Field, focus: Option<Tree>): Cursor {
    Cursor(focus, In(Frame(node, field), Top), 0, 0, 0)
  }

  function AtRoot(t: Tree): Cursor { Cursor(Some(t), Top, 0, 0, 0) }

  /** The first actions lead from `c` to `d`, and so only the rest of them matters. */
  predicate ComesDownTo(c: Cursor, all: seq<Action>, d: Cursor, rest: seq<Action>) {
    (Stays(c, all) <==> Stays(d, rest)) && Run(c, all) == Run(d, rest)
  }

  lemma StaysThen(c: Cursor, a: Action, d: Cursor, rest: seq<Action>)
    requires StepsInside(c, a, d)
    ensures ComesDownTo(c, [a] + rest, d, rest)
  {
    assert ([a] + rest)[1..] == rest;
  }

  lemma EntersField(n: Tree, field: Field)
    requires IsBarrier(n.kind) && field !in n.kids
    ensures StepsInside(AtRoot(n), Ready(field), InField(n, field, None))
  {
    assert n.kids - {field} == n.kids;
  }

  lemma InsertsText(n: Tree, field: Field, text: string)
    requires IsBarrier(n.kind)
    ensures StepsInside(InField(n, field, None), Simple(Text, text), InField(n, field, Some(NewNode(Text, text))))
  {
  }

  lemma CountsInField(n: Tree, field: Field, t: Tree, width: nat)
    requires IsBarrier(n.kind)
    ensures StepsInside(InField(n, field, Some(t)), Count(width, 0),
                        InField(n, field, Some(t.(width := t.width + width))))
  {
  }

  /** The node takes up the piece and its columns. */
  lemma LeavesField(n: Tree, field: Field, t: Tree)
    requires IsBarrier(n.kind) && t.brackets == 0 && !t.extend
    ensures StepsInside(InField(n, field, Some(t)), Parent,
                        AtRoot(n.(width := n.width + t.spaces + t.width, kids := n.kids[field := t])))
  {
  }

  function TextOfNumber(digits: string): Tree { NewNode(Text, digits).(width := |digits|) }

  function DigitActions(field: Field, digits: string): seq<Action> {
    [Ready(field), Simple(Text, digits), Count(|digits|, 0)]
  }

  lemma ReadsDigits(n: Tree, field: Field, digits: string, rest: seq<Action>)
    requires IsBarrier(n.kind) && field !in n.kids
    ensures ComesDownTo(AtRoot(n), DigitActions(field, digits) + rest,
                        InField(n, field, Some(TextOfNumber(digits))), rest)
  {
    EntersField(n, field);
    InsertsText(n, field, digits);
    CountsInField(n, field, NewNode(Text, digits), |digits|);
    StaysThen(InField(n, field, Some(NewNode(Text, digits))), Count(|digits|, 0),
              InField(n, field, Some(TextOfNumber(digits))), rest);
    StaysThen(InField(n, field, None), Simple(Text, digits), InField(n, field, Some(NewNode(Text, digits))),
              [Count(|digits|, 0)] + rest);
    StaysThen(AtRoot(n), Ready(field), InField(n, field, None), [Simple(Text, digits)] + ([Count(|digits|, 0)] + rest));
    ThreeThen(Ready(field), Simple(Text, digits), Count(|digits|, 0), rest);
  }

  /** What the dialog does after it has made a node for a number. */
  function NumberActions(whole: string, sign: Operator): seq<Action> {
    DigitActions(Op1, whole) + ([CopyOperator(sign)] + ([Parent] + []))
  }

  /** The sign goes to the text, which becomes the scope if a member follows. */
  function NumberTree(whole: string, sign: Operator): Tree {
    NewNode(Number, "").(width := |whole|, kids := map[Op1 := TextOfNumber(whole).(op := sign)])
  }

  lemma {:induction false} NumberIsOperand(whole: string, sign: Operator)
    ensures IsOperand(Number, "", NumberActions(whole, sign))
    ensures Built(Number, "", NumberActions(whole, sign)) == NumberTree(whole, sign)
  {
    var n, t := NewNode(Number, ""), TextOfNumber(whole);
    ReadsDigits(n, Op1, whole, [CopyOperator(sign)] + ([Parent] + []));
    StaysThen(InField(n, Op1, Some(t)), CopyOperator(sign), InField(n, Op1, Some(t.(op := sign))), [Parent] + []);
    LeavesField(n, Op1, t.(op := sign));
    StaysThen(InField(n, Op1, Some(t.(op := sign))), Parent, AtRoot(NumberTree(whole, sign)), []);
  }

  /** With digits after the point there are two pieces, and the sign goes to the number. */
  function DecimalActions(whole: string, fraction: string, sign: Operator): seq<Action> {
    DigitActions(Op1, whole)
    + ([Count(1, 0)] + ([Parent] + ([CopyOperator(sign)] + (DigitActions(Op2, fraction) + ([Parent] + [])))))
  }

  function WholeTree(whole: string, sign: Operator): Tree {
    NewNode(Number, "").(op := sign, width := |whole| + 1,
                         kids := map[Op1 := TextOfNumber(whole).(width := |whole| + 1)])
  }

  function DecimalTree(whole: string, fraction: string, sign: Operator): Tree {
    var w := WholeTree(whole, sign);
    w.(width := w.width + |fraction|, kids := w.kids[Op2 := TextOfNumber(fraction)])
  }

  lemma {:induction false} DecimalIsOperand(whole: string, fraction: string, sign: Operator)
    ensures IsOperand(Number, "", DecimalActions(whole, fraction, sign))
    ensures Built(Number, "", DecimalActions(whole, fraction, sign)) == DecimalTree(whole, fraction, sign)
  {
    var rest := [CopyOperator(sign)] + (DigitActions(Op2, fraction) + ([Parent] + []));
    ReadsDigits(NewNode(Number, ""), Op1, whole, [Count(1, 0)] + ([Parent] + rest));
    ReadsPoint(whole, rest);
    ReadsFraction(whole, fraction, sign);
  }

  lemma ReadsPoint(whole: string, rest: seq<Action>)
    ensures ComesDownTo(InField(NewNode(Number, ""), Op1, Some(TextOfNumber(whole))), [Count(1, 0)] + ([Parent] + rest),
                        AtRoot(WholeTree(whole, Undefined)), rest)
  {
    var n, t := NewNode(Number, ""), TextOfNumber(whole);
    var u := t.(width := |whole| + 1);
    CountsInField(n, Op1, t, 1);
    LeavesField(n, Op1, u);
    StaysThen(InField(n, Op1, Some(u)), Parent, AtRoot(WholeTree(whole, Undefined)), rest);
    StaysThen(InField(n, Op1, Some(t)), Count(1, 0), InField(n, Op1, Some(u)), [Parent] + rest);
  }

  lemma ReadsFraction(whole: string, fraction: string, sign: Operator)
    ensures ComesDownTo(AtRoot(WholeTree(whole, Undefined)),
                        [CopyOperator(sign)] + (DigitActions(Op2, fraction) + ([Parent] + [])),
                        AtRoot(DecimalTree(whole, fraction, sign)), [])
  {
    var w, t := WholeTree(whole, sign), TextOfNumber(fraction);
    StaysThen(AtRoot(WholeTree(whole, Undefined)), CopyOperator(sign), AtRoot(w),
              DigitActions(Op2, fraction) + ([Parent] + []));
    ReadsDigits(w, Op2, fraction, [Parent] + []);
    LeavesField(w, Op2, t);
    StaysThen(InField(w, Op2, Some(t)), Parent, AtRoot(DecimalTree(whole, fraction, sign)), []);
  }

  // ----- strings

  /** A piece of a string, after so many spaces. */
  datatype Piece = Piece(text: string, spaces: nat)

  function PieceActions(pieces: seq<Piece>): seq<Action> {
    if pieces == [] then []
    else
      var n := |pieces| - 1;
      PieceActions(pieces[..n]) + [Simple(Text, pieces[n].text), Count(|pieces[n].text|, pieces[n].spaces)]
  }

  /** What the dialog does after it has made a node for the string; `spaces` are those
      before the closing quote. */
  function StringActions(pieces: seq<Piece>, spaces: nat): seq<Action> {
    [Count(1, 0), Ready(Op1)] + PieceActions(pieces) + [SpacesOnly(spaces)]
    + [Return(ToString), Parent, Count(1, 0)]
  }

  /** The pieces, joined from the left; spaces at the end, or nothing at all, are an empty
      piece. */
  function StringShape(pieces: seq<Piece>, spaces: nat): Shape {
    if pieces == [] then LeafShape(Text, "")
    else if spaces == 0 then PiecesShape(pieces)
    else SBin(Undefined, PiecesShape(pieces), LeafShape(Text, ""))
  }

  function PiecesShape(pieces: seq<Piece>): Shape
    requires pieces != []
  {
    var n := |pieces| - 1;
    if n == 0 then LeafShape(Text, pieces[0].text)
    else SBin(Undefined, PiecesShape(pieces[..n]), LeafShape(Text, pieces[n].text))
  }

  /** The cursor is on the last piece of those that hang at `base`. */
  predicate OnPieces(c: Cursor, base: Path, shape: Shape) {
    && Hangs(c, base, 8, shape, 0)
    && (c.path != base ==>
          && c.path.In? && c.path.up == base
          && c.path.frame.node.kind == Operation && c.path.frame.node.op == Undefined)
  }

  /** The field of a string. */
  predicate InString(base: Path) { base.In? && base.frame.node.kind == Literal && base.up.Top? }

  lemma FirstPiece(c: Cursor, base: Path, text: string)
    requires InString(base) && c == Cursor(None, base, 0, 0, 0)
    ensures var r := InsertSimpleNode(c, Text, text);
      r.raised == Quiet && r.cursor.path == base && OnPieces(r.cursor, base, LeafShape(Text, text))
  {
  }

  lemma NextPiece(c: Cursor, base: Path, shape: Shape, text: string)
    requires InString(base) && OnPieces(c, base, shape)
    ensures var r := InsertSimpleNode(c, Text, text);
      r.raised == Quiet && OnPieces(r.cursor, base, SBin(Undefined, shape, LeafShape(Text, text)))
  {
    AppendsPiece(c, base, shape, Text, text);
    if c.path != base {
      assert Climbs(c, Undefined) && ReturnOneLevel(c) == Outcome(Lift(c), Quiet);
      assert FindInsertionPoint(Lift(c), Undefined) == Outcome(Lift(c), Quiet);
    }
  }

  lemma CountOnPieces(c: Cursor, base: Path, shape: Shape, width: nat, spaces: nat)
    requires OnPieces(c, base, shape)
    ensures OnPieces(CountToken(c, width, spaces), base, shape)
  {
    HangingIgnoresLayout(c, CountToken(c, width, spaces), base, 8, shape, 0);
  }

  lemma {:induction false} PathOfPieces(c: Cursor, base: Path, shape: Shape)
    requires InString(base) && OnPieces(c, base, shape)
    ensures Enclosed(c.path)
  {
  }

  /** The pieces are read one after the other, inside the string. */
  lemma {:induction false} ReadsPieces(c: Cursor, pieces: seq<Piece>) returns (d: Cursor)
    requires InString(c.path) && c == Cursor(None, c.path, 0, 0, 0)
    ensures Leads(c, PieceActions(pieces), d)
    ensures if pieces == [] then d == c else OnPieces(d, c.path, PiecesShape(pieces))
    decreases |pieces|
  {
    if pieces == [] {
      LeadsNowhere(c);
      d := c;
    } else {
      var n := |pieces| - 1;
      var before := ReadsPieces(c, pieces[..n]);
      var inserted := InsertSimpleNode(before, Text, pieces[n].text).cursor;
      if n == 0 {
        FirstPiece(c, c.path, pieces[n].text);
      } else {
        PathOfPieces(before, c.path, PiecesShape(pieces[..n]));
        NextPiece(before, c.path, PiecesShape(pieces[..n]), pieces[n].text);
      }
      d := CountToken(inserted, |pieces[n].text|, pieces[n].spaces);
      CountOnPieces(inserted, c.path, PiecesShape(pieces), |pieces[n].text|, pieces[n].spaces);
      LeadsTwo(before, Simple(Text, pieces[n].text), Count(|pieces[n].text|, pieces[n].spaces));
      LeadsOn(c, PieceActions(pieces[..n]), before,
              [Simple(Text, pieces[n].text), Count(|pieces[n].text|, pieces[n].spaces)], d);
    }
  }

  /** What the closing quote puts in when there are spaces before it, or nothing at all. */
  lemma InsertsEmptyPiece(c: Cursor, base: Path, pieces: seq<Piece>)
    requires InString(base)
    requires if pieces == [] then c == Cursor(None, base, 0, 0, 0) else OnPieces(c, base, PiecesShape(pieces))
    ensures var r := InsertSimpleNode(c, Text, "");
      && r.raised == Quiet && Enclosed(c.path)
      && OnPieces(r.cursor, base, if pieces == [] then LeafShape(Text, "")
                                  else SBin(Undefined, PiecesShape(pieces), LeafShape(Text, "")))
  {
    if pieces == [] {
      FirstPiece(c, base, "");
    } else {
      PathOfPieces(c, base, PiecesShape(pieces));
      NextPiece(c, base, PiecesShape(pieces), "");
    }
  }

  lemma ReadsSpaces(c: Cursor, base: Path, pieces: seq<Piece>, spaces: nat) returns (d: Cursor)
    requires InString(base)
    requires if pieces == [] then c == Cursor(None, base, 0, 0, 0) else OnPieces(c, base, PiecesShape(pieces))
    ensures Leads(c, [SpacesOnly(spaces)], d) && OnPieces(d, base, StringShape(pieces, spaces))
  {
    d := InsertSpacesOnly(c, spaces).cursor;
    InsertsEmptyPiece(c, base, pieces);
    SpacesOnPieces(c, base, pieces, spaces);
    SpacesLead(c, spaces);
  }

  lemma SpacesOnPieces(c: Cursor, base: Path, pieces: seq<Piece>, spaces: nat)
    requires InString(base)
    requires if pieces == [] then c == Cursor(None, base, 0, 0, 0) else OnPieces(c, base, PiecesShape(pieces))
    ensures OnPieces(InsertSpacesOnly(c, spaces).cursor, base, StringShape(pieces, spaces))
  {
    if spaces > 0 || pieces == [] {
      InsertsEmptyPiece(c, base, pieces);
      SpacesAreCounted(c, spaces);
      CountOnPieces(InsertSimpleNode(c, Text, "").cursor, base, StringShape(pieces, spaces), 0, spaces);
    }
  }

  lemma SpacesAreCounted(c: Cursor, spaces: nat)
    requires spaces > 0 || c.focus.None?
    ensures InsertSpacesOnly(c, spaces).cursor == CountToken(InsertSimpleNode(c, Text, "").cursor, 0, spaces)
  {
  }

  lemma SpacesLead(c: Cursor, spaces: nat)
    requires Enclosed(c.path) && InsertSimpleNode(c, Text, "").raised == Quiet
    ensures Leads(c, [SpacesOnly(spaces)], InsertSpacesOnly(c, spaces).cursor)
  {
    LeadsOne(c, SpacesOnly(spaces));
  }

  /** The cursor is back at the string, whose field holds this. */
  predicate IsString(d: Cursor, shape: Shape) {
    && d.path.Top? && d.brackets == d.deferredWidth == d.deferredSpaces == 0 && d.focus.Some?
    && var t := d.focus.value;
    && t.kind == Literal && t.brackets == 0 && t.kids.Keys == {Op1} && ShapeOf(t.kids[Op1]) == shape
  }

  lemma ReturnsToString(c: Cursor, base: Path, shape: Shape)
    requires InString(base) && OnPieces(c, base, shape)
    ensures var r := ReturnTo(c, ToString);
      r.raised == Quiet && r.cursor.path == base && OnPieces(r.cursor, base, shape)
  {
    assert !Passes(ToString, base.frame.node);
    if c.path != base {
      assert ReturnOneLevel(c) == Outcome(Lift(c), Quiet);
      assert ReturnTo(Lift(c), ToString) == Outcome(Lift(c), Quiet);
    }
  }

  lemma LeavesString(c: Cursor, base: Path, shape: Shape)
    requires InString(base) && base.frame.hole == Op1 && base.frame.node.kids == map[] && base.frame.node.brackets == 0
    requires c.path == base && OnPieces(c, base, shape)
    ensures Act(c, Parent) == Outcome(Lift(c), Quiet) && IsString(CountToken(Lift(c), 1, 0), shape)
  {
    assert Lift(c).focus.value.kids == map[Op1 := c.focus.value];
  }

  lemma ClosesString(c: Cursor, base: Path, shape: Shape) returns (d: Cursor)
    requires InString(base) && base.frame.hole == Op1 && base.frame.node.kids == map[] && base.frame.node.brackets == 0
    requires OnPieces(c, base, shape)
    ensures Leads(c, [Return(ToString), Parent, Count(1, 0)], d) && IsString(d, shape)
  {
    var back := ReturnTo(c, ToString).cursor;
    PathOfPieces(c, base, shape);
    ReturnsToString(c, base, shape);
    LeavesString(back, base, shape);
    d := CountToken(Lift(back), 1, 0);
    LeadsOut(c, back);
  }

  lemma LeadsOut(c: Cursor, back: Cursor)
    requires Enclosed(c.path) && ReturnTo(c, ToString) == Outcome(back, Quiet)
    requires InString(back.path) && Act(back, Parent) == Outcome(Lift(back), Quiet)
    ensures Leads(c, [Return(ToString), Parent, Count(1, 0)], CountToken(Lift(back), 1, 0))
  {
    LeadsOne(c, Return(ToString));
    LeadsMore(c, [Return(ToString)], back, Parent);
    LeadsMore(c, [Return(ToString)] + [Parent], Lift(back), Count(1, 0));
    assert [Return(ToString)] + [Parent] + [Count(1, 0)] == [Return(ToString), Parent, Count(1, 0)];
  }

  /** A string is an operand, and its pieces are joined from the left. */
  lemma StringIsOperand(pieces: seq<Piece>, spaces: nat)
    ensures IsOperand(Literal, "", StringActions(pieces, spaces))
    ensures IsString(Run(AtLeaf(Literal, ""), StringActions(pieces, spaces)).cursor, StringShape(pieces, spaces))
  {
    var leaf := AtLeaf(Literal, "");
    var node := NewNode(Literal, "").(width := 1);
    var c := InField(node, Op1, None);
    assert node.kids - {Op1} == map[];
    LeadsOne(leaf, Count(1, 0));
    LeadsMore(leaf, [Count(1, 0)], AtRoot(node), Ready(Op1));
    assert [Count(1, 0)] + [Ready(Op1)] == [Count(1, 0), Ready(Op1)];
    var held := ReadsPieces(c, pieces);
    var all := ReadsSpaces(held, c.path, pieces, spaces);
    var d := ClosesString(all, c.path, StringShape(pieces, spaces));
    LeadsOn(leaf, [Count(1, 0), Ready(Op1)], c, PieceActions(pieces), held);
    LeadsOn(leaf, [Count(1, 0), Ready(Op1)] + PieceActions(pieces), held, [SpacesOnly(spaces)], all);
    LeadsOn(leaf, [Count(1, 0), Ready(Op1)] + PieceActions(pieces) + [SpacesOnly(spaces)], all,
            [Return(ToString), Parent, Count(1, 0)], d);
    LeadsStays(leaf, StringActions(pieces, spaces), d);
  }
}

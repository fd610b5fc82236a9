/** Well-formed documents, and what holds of the parser's tree after any input. */
module JsonTrees {
  import opened JsonLexer
  import opened JsonParser

  /** A complete value: an object has only members, the other kinds have no children but an array's values. */
  predicate Value(j: Json)
    decreases j, 0
  {
    match j.kind
    case STRING => StringText(j.text) && j.kids == []
    case NUMBER => NumberText(j.text) && j.kids == []
    case OBJECT => j.text == "" && forall i :: 0 <= i < |j.kids| ==> Member(j.kids[i])
    case ARRAY => j.text == "" && forall i :: 0 <= i < |j.kids| ==> Value(j.kids[i])
    case _ => j.text == "" && j.kids == []
  }

  /** A label with exactly one value. */
  predicate Member(j: Json)
    decreases j, 1
  {
    j.kind == STRING && StringText(j.text) && |j.kids| == 1 && Value(j.kids[0])
  }

  /** What may stand directly below what, on the way from the root to the cursor. */
  predicate Sits(above: Kind, below: Kind) {
    if below == STRING then above == OBJECT
    else (below == OBJECT || below == ARRAY) && (above == STRING || above == ARRAY)
  }

  predicate SitsAt(stack: seq<Json>, i: nat)
    requires 0 < i < |stack|
  {
    Sits(stack[i - 1].kind, stack[i].kind)
  }

  predicate Stacked(stack: seq<Json>) {
    && (forall i :: 0 <= i < |stack| ==> Value(stack[i]))
    && (stack != [] ==> stack[0].kind == OBJECT)
    && (forall i :: 0 < i < |stack| ==> SitsAt(stack, i))
  }

  /** The cursor is of the kind the state is for. */
  predicate CursorFits(p: Parser) {
    match p.state
    case 0 => p.stack == []
    case 1 => p.stack == [] || Cursor(p.stack).kind == STRING || Cursor(p.stack).kind == ARRAY
    case 7 => p.stack != [] && (Cursor(p.stack).kind == STRING || Cursor(p.stack).kind == ARRAY)
    case 2 => p.stack != [] && Cursor(p.stack).kind == OBJECT
    case 3 => p.stack != [] && Cursor(p.stack).kind == OBJECT
    case 4 => p.stack != [] && Cursor(p.stack).kind == OBJECT
    case 5 => p.stack != [] && Cursor(p.stack).kind == STRING
    case 6 => p.stack != [] && Cursor(p.stack).kind == STRING
    case 8 => p.stack != [] && Cursor(p.stack).kind == ARRAY
    case 9 => p.stack != [] && Cursor(p.stack).kind == ARRAY
    case 99 => |p.stack| == 1
    case _ => false
  }

  /** The invariant of the parser. */
  predicate Consistent(p: Parser) {
    Collected(p.lex) && Stacked(p.stack) && CursorFits(p)
  }

  lemma ConsistentDeep(p: Parser)
    requires Stacked(p.stack) && CursorFits(p)
    ensures Deep(p)
  {
  }

  /** The document is refused for what it says, never because the parser lost its way. */
  predicate Honest(r: Result) {
    r.Failed? ==> r.code == Malformed || r.code == IllegalCharacter
  }

  lemma PushStacked(stack: seq<Json>, j: Json)
    requires Stacked(stack) && Value(j)
    requires if stack == [] then j.kind == OBJECT else Sits(Cursor(stack).kind, j.kind)
    ensures Stacked(stack + [j])
  {
    var s := stack + [j];
    assert forall i :: 0 <= i < |stack| ==> s[i] == stack[i];
    forall i | 0 < i < |stack| ensures SitsAt(s, i) {
      assert SitsAt(stack, i) && s[i - 1] == stack[i - 1];
    }
    if stack != [] {
      assert s[|stack| - 1] == Cursor(stack) && s[|stack|] == j;
      assert SitsAt(s, |stack|);
    }
  }

  lemma PopStacked(stack: seq<Json>)
    requires Stacked(stack) && stack != []
    ensures Stacked(stack[..|stack| - 1])
  {
    var s := stack[..|stack| - 1];
    forall i | 0 < i < |s| ensures SitsAt(s, i) {
      assert SitsAt(stack, i) && s[i - 1] == stack[i - 1] && s[i] == stack[i];
    }
  }

  /** A container stays well-formed with one more suitable child. */
  lemma AddValue(j: Json, kid: Json)
    requires Value(j)
    requires (j.kind == ARRAY && Value(kid)) || (j.kind == OBJECT && Member(kid))
    ensures Value(Add(j, kid))
  {
    var k := Add(j, kid);
    assert forall i :: 0 <= i < |j.kids| ==> k.kids[i] == j.kids[i];
  }

  lemma ReplaceTop(stack: seq<Json>, j: Json)
    requires Stacked(stack) && stack != [] && Value(j) && j.kind == Cursor(stack).kind
    ensures Stacked(stack[..|stack| - 1] + [j])
  {
    PopStacked(stack);
    if |stack| > 1 { assert SitsAt(stack, |stack| - 1); }
    PushStacked(stack[..|stack| - 1], j);
  }

  lemma InsertItem(stack: seq<Json>, kid: Json)
    requires Stacked(stack) && stack != [] && Cursor(stack).kind == ARRAY && Value(kid)
    ensures Stacked(Insert(stack, kid)) && Cursor(Insert(stack, kid)).kind == ARRAY && |Insert(stack, kid)| == |stack|
  {
    AddValue(Cursor(stack), kid);
    ReplaceTop(stack, Add(Cursor(stack), kid));
  }

  /** A label on an object gets its value, and goes into the object. */
  lemma InsertMember(stack: seq<Json>, v: Json)
    requires Stacked(stack) && |stack| >= 2 && Cursor(stack).kind == STRING && Value(v)
    ensures var s := Up(Insert(stack, v)); s != [] && Stacked(s) && Cursor(s).kind == OBJECT
  {
    var n := |stack|;
    var member := Add(stack[n - 1], v);
    assert SitsAt(stack, n - 1);
    PopStacked(stack);
    var below := stack[..n - 1];
    assert Insert(stack, v)[..n - 1] == below;
    assert member.kids[0] == v;
    AddValue(below[n - 2], member);
    ReplaceTop(below, Add(below[n - 2], member));
  }

  lemma LabelNotFirst(stack: seq<Json>)
    requires Stacked(stack) && stack != [] && Cursor(stack).kind != OBJECT
    ensures |stack| >= 2
  {
  }

  lemma LeaveKept(p: Parser)
    requires Stacked(p.stack) && p.stack != [] && (Cursor(p.stack).kind == OBJECT || Cursor(p.stack).kind == ARRAY)
    ensures var r := Leave(p); r.Going? && Stacked(r.p.stack) && CursorFits(r.p) && r.p.lex == p.lex
  {
    var n := |p.stack|;
    if n > 1 {
      var v, below := p.stack[n - 1], p.stack[..n - 1];
      assert SitsAt(p.stack, n - 1);
      PopStacked(p.stack);
      if Cursor(below).kind == ARRAY {
        InsertItem(below, v);
      } else {
        LabelNotFirst(below);
        InsertMember(below, v);
      }
    }
  }

  lemma LabelKept(p: Parser)
    requires Stacked(p.stack) && p.stack != [] && Cursor(p.stack).kind == OBJECT && StringText(p.lex.text)
    ensures var r := Label(p); r.Going? && Stacked(r.p.stack) && CursorFits(r.p)
  {
    PushStacked(p.stack, Leaf(STRING, p.lex.text));
  }

  lemma ScalarKept(p: Parser, tok: Token)
    requires Stacked(p.stack) && CursorFits(p) && (p.state == 6 || p.state == 8) && ScalarToken(tok)
    requires tok == Text ==> StringText(p.lex.text)
    requires tok == Number ==> NumberText(p.lex.text)
    ensures Deep(p) && var r := Deliver(p, tok); r.Going? && Stacked(r.p.stack) && CursorFits(r.p)
  {
    LabelNotFirst(p.stack);
    if p.state == 6 {
      InsertMember(p.stack, Scalar(tok, p.lex.text));
    } else {
      InsertItem(p.stack, Scalar(tok, p.lex.text));
    }
  }

  lemma DeliverKept(p: Parser, tok: Token)
    requires Stacked(p.stack) && CursorFits(p) && !Pending(p)
    requires tok == Text ==> StringText(p.lex.text)
    requires tok == Number ==> NumberText(p.lex.text)
    ensures Deep(p) && var r := Deliver(p, tok); Honest(r) && (r.Going? ==> Stacked(r.p.stack) && CursorFits(r.p))
  {
    ConsistentDeep(p);
    if p.state == 2 || p.state == 4 {
      if tok == Text { LabelKept(p); }
    }
    if (p.state == 2 || p.state == 3 || p.state == 8 || p.state == 9) && (tok == EndObject || tok == EndArray) {
      LeaveKept(p);
    }
    if (p.state == 6 || p.state == 8) && ScalarToken(tok) {
      ScalarKept(p, tok);
    }
  }

  lemma OpenedKept(p: Parser)
    requires Consistent(p)
    ensures Consistent(Opened(p)) && !Pending(Opened(p)) && Deep(Opened(p)) && Deep(p)
  {
    ConsistentDeep(p);
    if p.state == 1 { PushStacked(p.stack, Leaf(OBJECT, "")); }
    if p.state == 7 { PushStacked(p.stack, Leaf(ARRAY, "")); }
  }

  lemma TokenKept(o: Parser, c: char)
    requires Consistent(o) && !Pending(o) && LexChar(o.lex, c).Emit?
    ensures var w := o.(lex := LexChar(o.lex, c).l);
      Deep(w) && var d := Deliver(w, LexChar(o.lex, c).tok);
      Honest(d) && (d.Going? ==> Consistent(d.p) && d.p.lex.state == 0)
  {
    var r := LexChar(o.lex, c);
    var w := o.(lex := r.l);
    CollectedKept(o.lex, c);
    DeliverKept(w, r.tok);
    DeliverDeep(w, r.tok);
    EmitState(o.lex, c);
  }

  /** Every character keeps the invariant. */
  lemma {:induction false} StepKept(p: Parser, c: char)
    requires Consistent(p)
    ensures Deep(p) && var r := StepChar(p, c); Honest(r) && (r.Going? ==> Consistent(r.p))
    decreases if p.lex.state == 0 then 0 else 1
  {
    OpenedKept(p);
    var o := Opened(p);
    var r := LexChar(o.lex, c);
    CollectedKept(o.lex, c);
    if r.Emit? {
      TokenKept(o, c);
      CharRank(o.lex, c);
      var d := Deliver(o.(lex := r.l), r.tok);
      if d.Going? && !r.eaten { StepKept(d.p, c); }
    }
  }

  /** A token leaves the lexer outside any token. */
  lemma EmitState(l: Lex, c: char)
    requires Collected(l)
    ensures var r := LexChar(l, c); r.Emit? && r.tok != Invalid ==> r.l.state == 0
  {
  }

  /** The invariant holds after any input, and a refusal is never for a broken tree. */
  lemma {:induction false} StepsKept(p: Parser, s: string)
    requires Consistent(p)
    ensures Deep(p) && var r := Steps(p, s); Honest(r) && (r.Going? ==> Consistent(r.p))
    decreases |s|
  {
    ConsistentDeep(p);
    if s != [] {
      StepKept(p, s[0]);
      var r := StepChar(p, s[0]);
      if r.Going? { StepsKept(r.p, s[1..]); }
    }
  }

  /** When the document has ended, the tree is an object in which every label has exactly one value. */
  lemma Finished(s: string)
    ensures var r := Steps(INIT, s);
      Honest(r)
          && (r.Going? && r.p.state == 99 ==> |r.p.stack| == 1 && r.p.stack[0].kind == OBJECT && Value(r.p.stack[0]))
  {
    StepsKept(INIT, s);
  }
}

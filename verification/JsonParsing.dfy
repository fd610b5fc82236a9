/** The parser as it runs: it takes fragments, and builds a document of linked nodes. */
module JsonParsing {
  import opened JsonLexer
  import opened JsonParser
  import opened JsonTrees
  import opened JsonLexing
  import opened JsonNodes

  /** What json_insert_child lets below what. */
  predicate Accepts(parent: Kind, child: Kind, hasKids: bool) {
    match parent
    case STRING => child == OBJECT || child == ARRAY || !hasKids
    case OBJECT => child == STRING
    case ARRAY => child == OBJECT || child == ARRAY || !hasKids
    case _ => false
  }

  /** Below an object there are labels; below a label and in an array there is anything, but a node that has children
      must be a container. */
  lemma KindsAccepted(parent: Kind, child: Kind, hasKids: bool)
    ensures Accepts(parent, child, hasKids) <==>
      || (parent == OBJECT && child == STRING)
      || ((parent == STRING || parent == ARRAY) && (child == OBJECT || child == ARRAY || !hasKids))
  {
  }

  /** Where the end of a container leads. */
  lemma LeaveCases(p: Parser)
    requires Stacked(p.stack) && p.stack != [] && (Cursor(p.stack).kind == OBJECT || Cursor(p.stack).kind == ARRAY)
    ensures |p.stack| == 1 ==> Leave(p) == Going(p.(state := 99))
    ensures |p.stack| > 1 ==> var s := Up(p.stack);
      if Cursor(s).kind == STRING then |s| >= 2 && Leave(p) == Going(p.(state := 3, stack := Up(s)))
      else Leave(p) == Going(p.(state := 9, stack := s))
  {
    LeaveKept(p);
  }

  /** What ends an array, and what follows an item. */
  lemma ArrayCases(p: Parser, tok: Token)
    requires Deep(p) && (p.state == 8 || p.state == 9)
    ensures tok == EndArray ==> Deliver(p, tok) == Leave(p)
    ensures tok != EndArray && p.state == 9 ==>
      Deliver(p, tok) == if tok == ValueSeparator then Going(p.(state := 8)) else Failed(Malformed)
  {
  }

  lemma StackCursor(p: Path)
    ensures Stack(p) == [] <==> p.Top?
    ensures p.Open? ==> Cursor(Stack(p)).kind == p.node.kind
  {
  }

  class ParsingInfo {
    var state: nat
    const lexer: Lexer
    var cursor: Node?
    /** All nodes of the document, and the way to the cursor. */
    ghost var nodes: set<Node>
    ghost var path: Path

    ghost function Memory(): Store
      reads this`nodes, nodes
    {
      Links(nodes)
    }

    ghost predicate Linked()
      reads this`cursor, this`path, this`nodes, nodes
    {
      Place(Memory(), path) && cursor == Above(path)
    }

    ghost predicate Valid()
      reads this, nodes, lexer, lexer.Repr()
    {
      lexer.Valid() && Linked() && Consistent(Now())
    }

    /** The parser as a value. */
    ghost function Now(): Parser
      requires lexer.Valid()
      reads this`state, this`path, lexer, lexer.Repr()
    {
      Parser(state, lexer.Now(), Stack(path))
    }

    constructor ()
      ensures Valid() && Now() == INIT && nodes == {} && fresh(lexer) && fresh(lexer.Repr())
    {
      lexer := new Lexer();
      state, cursor, nodes, path := 0, null, {}, Top;
    }

    /** A child at the end of a parent's list, if the kinds fit. */
    method InsertChild(parent: Node, child: Node) returns (ok: bool)
      requires parent in nodes && child in nodes && parent != child
      requires parent.child != null ==> parent.childEnd != null && parent.childEnd in nodes
      modifies nodes
      ensures ok <==> Accepts(parent.kind, child.kind, old(child.child) != null)
      ensures Memory() == if ok then Inserted(old(Memory()), parent, child) else old(Memory())
    {
      ok := match parent.kind
        case STRING => child.kind == OBJECT || child.kind == ARRAY || child.child == null
        case OBJECT => child.kind == STRING
        case ARRAY => child.kind == OBJECT || child.kind == ARRAY || child.child == null
        case _ => false;
      if !ok { return; }
      child.parent := parent;
      assert Memory() == old(Memory())[child := old(Memory())[child].(parent := parent)];
      if parent.child != null {
        LinkLast(parent, child);
      } else {
        parent.child := child;
        parent.childEnd := child;
      }
    }

    /** The child comes behind the last one. */
    method LinkLast(parent: Node, child: Node)
      requires parent in nodes && child in nodes && parent.childEnd != null && parent.childEnd in nodes
      modifies nodes
      ensures var s, last := old(Memory()), old(parent.childEnd);
        var s2 := s[child := s[child].(previous := last)];
        var s3 := s2[last := s2[last].(next := child)];
        last in s && Memory() == s3[parent := s3[parent].(last := child)]
    {
      child.previous := parent.childEnd;
      parent.childEnd.next := child;
      parent.childEnd := child;
    }

    /** A new node, not linked to anything. */
    method NewNode(kind: Kind, text: string) returns (temp: Node)
      requires Place(Memory(), path)
      modifies this`nodes
      ensures fresh(temp) && nodes == old(nodes) + {temp} && temp.kind == kind && temp.text == text
      ensures Place(Memory(), path) && Memory()[temp] == LOOSE && temp !in PathNodes(path)
    {
      ghost var s := Memory();
      temp := new Node(kind, text);
      nodes := nodes + {temp};
      assert Memory() == s[temp := LOOSE];
      SpineFrame(s, Memory(), path, null);
    }

    /** A loose node goes under the cursor. */
    method LinkChild(child: Node)
      requires Linked() && cursor != null && Accepts(cursor.kind, child.kind, false)
      requires child in nodes && Memory()[child] == LOOSE && child !in PathNodes(path)
      modifies this`path, nodes
      ensures Place(Memory(), path) && path == Push(old(path), child)
    {
      ghost var s := Memory();
      PushPlace(s, path, child);
      assert s[cursor] == Cell(cursor.next, cursor.previous, cursor.parent, cursor.child, cursor.childEnd);
      assert s[child] == Cell(child.next, child.previous, child.parent, child.child, child.childEnd);
      assert cursor != child;
      hide Place, Inserted, Push, PathNodes;
      var ok := InsertChild(cursor, child);
      path := Push(path, child);
    }

    /** A new node under the cursor. */
    method NewChild(kind: Kind, text: string) returns (temp: Node)
      requires Linked() && cursor != null && Accepts(cursor.kind, kind, false)
      modifies this`path, this`nodes, nodes
      ensures Place(Memory(), path) && fresh(temp) && nodes == old(nodes) + {temp} && path == Push(old(path), temp)
      ensures temp.kind == kind && temp.text == text
    {
      hide Place, Push, PathNodes;
      temp := NewNode(kind, text);
      LinkChild(temp);
    }

    /** The first node of a document. */
    method NewRoot(kind: Kind) returns (temp: Node)
      requires path == Top
      modifies this`path, this`nodes
      ensures Place(Memory(), path) && fresh(temp) && nodes == old(nodes) + {temp} && path == Push(Top, temp)
      ensures temp.kind == kind && temp.text == ""
    {
      temp := NewNode(kind, "");
      RootPlace(Memory(), temp);
      path := Push(Top, temp);
    }

    /** Another state of the parser. */
    method GoTo(next: nat)
      requires lexer.Valid() && Linked()
      modifies this`state
      ensures lexer.Valid() && Linked() && lexer.Now() == old(lexer.Now()) && lexer.Repr() == old(lexer.Repr())
      ensures state == next
    {
      state := next;
    }

    /** A new node under the cursor, or the root, becomes the cursor. */
    method Descend(kind: Kind, text: string)
      requires lexer.Valid() && Linked()
      requires Stack(path) != [] ==> Accepts(Cursor(Stack(path)).kind, kind, false)
      requires Stack(path) == [] ==> text == ""
      modifies this`path, this`nodes, this`cursor, nodes
      ensures lexer.Valid() && Linked() && fresh(nodes - old(nodes)) && lexer.Repr() <= old(lexer.Repr())
      ensures lexer.Now() == old(lexer.Now()) && Stack(path) == old(Stack(path)) + [Leaf(kind, text)]
    {
      StackCursor(path);
      if cursor == null {
        cursor := NewRoot(kind);
      } else {
        cursor := NewChild(kind, text);
      }
    }

    /** States 1 and 7: the container is opened. */
    method OpenContainer()
      requires Valid() && Pending(Now())
      modifies this, nodes
      ensures Valid() && Now() == Opened(old(Now())) && fresh(nodes - old(nodes)) && lexer.Repr() <= old(lexer.Repr())
    {
      OpenedKept(Now());
      Descend(if state == 1 then OBJECT else ARRAY, "");
      GoTo(if state == 1 then 2 else 8);
    }

    /** A token has been read, and the cursor is of the kind the state is for. */
    ghost predicate Ready(tok: Token)
      reads this, nodes, lexer, lexer.Repr()
    {
      && lexer.Valid() && Linked() && Stacked(Stack(path)) && CursorFits(Now()) && !Pending(Now())
      && (tok == Text ==> lexer.text != null && lexer.state == 0 && StringText(lexer.Now().text))
      && (tok == Number ==> lexer.text != null && lexer.state == 0 && NumberText(lexer.Now().text))
    }

    /** The text of a string or number token. */
    method TokenText(tok: Token) returns (text: string)
      requires lexer.Valid() && Linked() && (tok == Text || tok == Number ==> lexer.text != null && lexer.state == 0)
      modifies lexer.Repr()
      ensures lexer.Valid() && lexer.Repr() <= old(lexer.Repr()) && Linked()
      ensures path == old(path) && cursor == old(cursor) && state == old(state) && nodes == old(nodes)
      ensures lexer.Now() == TakenLex(old(lexer.Now()), tok)
      ensures text == if tok == Text || tok == Number then old(lexer.Now()).text else ""
    {
      text := "";
      if tok == Text || tok == Number { text := lexer.TakeText(); }
    }

    /** States 2 and 4: a label. */
    method AddLabel()
      requires lexer.Valid() && Linked() && lexer.text != null && lexer.state == 0
      requires Stack(path) != [] && Cursor(Stack(path)).kind == OBJECT
      modifies this, nodes, lexer.Repr()
      ensures lexer.Valid() && Linked() && fresh(nodes - old(nodes)) && lexer.Repr() <= old(lexer.Repr())
      ensures Label(old(Now())) == Going(Now())
    {
      hide Place;
      var text := TokenText(Text);
      Descend(STRING, text);
      GoTo(5);
    }

    /** The cursor moves to its parent. */
    method Ascend()
      requires lexer.Valid() && Linked() && |Stack(path)| >= 2
      modifies this`cursor, this`path
      ensures lexer.Valid() && Linked() && Stack(path) == Up(old(Stack(path)))
      ensures lexer.Now() == old(lexer.Now()) && lexer.Repr() == old(lexer.Repr())
    {
      AscendPlace(Memory(), path);
      assert Memory()[cursor].parent == cursor.parent;
      cursor := cursor.parent;
      path := Raised(path);
    }

    /** A new node under the cursor, which stays where it is. */
    method InsertLeaf(kind: Kind, text: string)
      requires lexer.Valid() && Linked() && Stack(path) != [] && Accepts(Cursor(Stack(path)).kind, kind, false)
      modifies this`path, this`nodes, nodes
      ensures lexer.Valid() && Linked() && fresh(nodes - old(nodes)) && lexer.Repr() <= old(lexer.Repr())
      ensures lexer.Now() == old(lexer.Now()) && Stack(path) == Insert(old(Stack(path)), Leaf(kind, text))
    {
      StackCursor(path);
      ghost var p := path;
      var temp := NewChild(kind, text);
      LeafPlace(Memory(), p, temp);
      path := Raised(path);
    }

    /** States 6 and 8: a value that has no children. */
    method AddScalar(tok: Token)
      requires lexer.Valid() && Linked() && ScalarToken(tok)
      requires tok == Text || tok == Number ==> lexer.text != null && lexer.state == 0
      requires Stack(path) != [] && (Cursor(Stack(path)).kind == STRING || Cursor(Stack(path)).kind == ARRAY)
      modifies this`path, this`nodes, nodes, lexer.Repr()
      ensures lexer.Valid() && Linked() && fresh(nodes - old(nodes)) && lexer.Repr() <= old(lexer.Repr())
      ensures lexer.Now() == TakenLex(old(lexer.Now()), tok)
      ensures Stack(path) == Insert(old(Stack(path)), Scalar(tok, old(lexer.Now()).text))
    {
      var text := TokenText(tok);
      var kind := match tok
        case Text => STRING
        case Number => NUMBER
        case True => TRUE
        case False => FALSE
        case _ => NULL;
      InsertLeaf(kind, text);
    }

    /** State 6: the label's value; the cursor goes back to the object. */
    method AddLabelValue(tok: Token)
      requires lexer.Valid() && Linked() && ScalarToken(tok)
      requires tok == Text || tok == Number ==> lexer.text != null && lexer.state == 0
      requires |Stack(path)| >= 2 && Cursor(Stack(path)).kind == STRING
      modifies this, nodes, lexer.Repr()
      ensures lexer.Valid() && Linked() && fresh(nodes - old(nodes)) && lexer.Repr() <= old(lexer.Repr())
      ensures LabelValue(old(Now()), tok) == Going(Now())
    {
      hide Place, Scalar;
      AddScalar(tok);
      InsertLength(old(Stack(path)), Scalar(tok, old(lexer.Now()).text));
      Ascend();
      GoTo(3);
    }

    /** State 8: an item. */
    method AddItem(tok: Token)
      requires lexer.Valid() && Linked() && ScalarToken(tok)
      requires tok == Text || tok == Number ==> lexer.text != null && lexer.state == 0
      requires Stack(path) != [] && Cursor(Stack(path)).kind == ARRAY
      modifies this, nodes, lexer.Repr()
      ensures lexer.Valid() && Linked() && fresh(nodes - old(nodes)) && lexer.Repr() <= old(lexer.Repr())
      ensures Item(old(Now()), tok) == Going(Now())
    {
      AddScalar(tok);
      GoTo(9);
    }

    /** The end of an object or array. */
    method LeaveContainer()
      requires lexer.Valid() && Linked() && Stacked(Stack(path)) && Stack(path) != []
      requires Cursor(Stack(path)).kind == OBJECT || Cursor(Stack(path)).kind == ARRAY
      modifies this`state, this`cursor, this`path
      ensures lexer.Valid() && Linked() && lexer.Repr() == old(lexer.Repr()) && Leave(old(Now())) == Going(Now())
    {
      ghost var s, p := Memory(), path;
      StackCursor(p);
      LeavePlace(s, p, state, lexer.Now());
      assert s[cursor].parent == cursor.parent;
      if cursor.parent == null {
        MoveTo(cursor, 99, p);
        return;
      }
      var up: Node := cursor.parent;
      assert s[up].parent == up.parent;
      if up.kind == STRING {
        MoveTo(up.parent, 3, Raised(Raised(p)));
      } else {
        MoveTo(up, 9, Raised(p));
      }
    }

    /** The cursor moves to a place that is known. */
    method MoveTo(to: Node?, next: nat, ghost p: Path)
      requires lexer.Valid() && Place(Memory(), p) && to == Above(p)
      modifies this`state, this`cursor, this`path
      ensures lexer.Valid() && Linked() && lexer.Now() == old(lexer.Now()) && lexer.Repr() == old(lexer.Repr())
      ensures state == next && path == p
    {
      cursor, path, state := to, p, next;
    }

    /** States 2, 3 and 4: inside an object. */
    method InObject(tok: Token) returns (ok: bool, code: Code)
      requires Ready(tok) && 2 <= state <= 4
      modifies this, nodes, lexer.Repr()
      ensures lexer.Valid() && Linked() && fresh(nodes - old(nodes)) && lexer.Repr() <= old(lexer.Repr())
      ensures Deep(old(Now())) && Deliver(old(Now()), tok) == if ok then Going(Now()) else Failed(code)
    {
      ConsistentDeep(Now());
      ok, code := true, Malformed;
      if tok == Text && state != 3 {
        AddLabel();
      } else if tok == EndObject && state != 4 {
        LeaveContainer();
      } else if tok == ValueSeparator && state == 3 {
        GoTo(4);
      } else {
        ok := false;
        if tok == Invalid && state == 4 { code := IllegalCharacter; }
      }
    }

    /** States 5 and 6: at a label. */
    method AtLabel(tok: Token) returns (ok: bool, code: Code)
      requires Ready(tok) && 5 <= state <= 6
      modifies this, nodes, lexer.Repr()
      ensures lexer.Valid() && Linked() && fresh(nodes - old(nodes)) && lexer.Repr() <= old(lexer.Repr())
      ensures Deep(old(Now())) && Deliver(old(Now()), tok) == if ok then Going(Now()) else Failed(code)
    {
      ConsistentDeep(Now());
      ok, code := true, Malformed;
      if state == 5 {
        if tok == NameSeparator { GoTo(6); } else { ok := false; }
      } else if ScalarToken(tok) {
        AddLabelValue(tok);
      } else if tok == BeginObject {
        GoTo(1);
      } else if tok == BeginArray {
        GoTo(7);
      } else {
        ok := false;
        if tok == Invalid { code := IllegalCharacter; }
      }
    }

    /** State 8: an item may come. */
    method AtItem(tok: Token) returns (ok: bool, code: Code)
      requires Ready(tok) && state == 8 && tok != EndArray
      modifies this, nodes, lexer.Repr()
      ensures lexer.Valid() && Linked() && fresh(nodes - old(nodes)) && lexer.Repr() <= old(lexer.Repr())
      ensures Deep(old(Now())) && Deliver(old(Now()), tok) == if ok then Going(Now()) else Failed(code)
    {
      ConsistentDeep(Now());
      ok, code := true, Malformed;
      if ScalarToken(tok) {
        AddItem(tok);
      } else if tok == BeginArray {
        GoTo(7);
      } else if tok == BeginObject {
        GoTo(1);
      } else {
        ok := false;
        if tok == Invalid { code := IllegalCharacter; }
      }
    }

    /** States 8 and 9: inside an array. */
    method InArray(tok: Token) returns (ok: bool, code: Code)
      requires Ready(tok) && 8 <= state <= 9
      modifies this, nodes, lexer.Repr()
      ensures lexer.Valid() && Linked() && fresh(nodes - old(nodes)) && lexer.Repr() <= old(lexer.Repr())
      ensures Deep(old(Now())) && Deliver(old(Now()), tok) == if ok then Going(Now()) else Failed(code)
    {
      ConsistentDeep(Now());
      ArrayCases(Now(), tok);
      hide Deliver, Leave, Place, Stacked, Linked, Scalar;
      ok, code := true, Malformed;
      if tok == EndArray {
        LeaveContainer();
      } else if state == 8 {
        ok, code := AtItem(tok);
      } else {
        ok := AfterItem(tok);
      }
    }

    /** State 9: a comma may come. */
    method AfterItem(tok: Token) returns (ok: bool)
      requires Ready(tok) && state == 9 && tok != EndArray
      modifies this`state
      ensures lexer.Valid() && Linked() && lexer.Repr() == old(lexer.Repr())
      ensures Deep(old(Now())) && Deliver(old(Now()), tok) == if ok then Going(Now()) else Failed(Malformed)
    {
      ConsistentDeep(Now());
      ArrayCases(Now(), tok);
      hide Deliver, Leave, Place;
      ok := tok == ValueSeparator;
      if ok { GoTo(8); }
    }

    method DeliverToken(tok: Token) returns (ok: bool, code: Code)
      requires Ready(tok)
      modifies this, nodes, lexer.Repr()
      ensures lexer.Valid() && Linked() && fresh(nodes - old(nodes)) && lexer.Repr() <= old(lexer.Repr())
      ensures Deep(old(Now())) && Deliver(old(Now()), tok) == if ok then Going(Now()) else Failed(code)
    {
      ConsistentDeep(Now());
      ok, code := true, Malformed;
      if state == 0 {
        if tok == BeginObject { GoTo(1); } else { ok := false; }
      } else if state <= 4 {
        ok, code := InObject(tok);
      } else if state <= 6 {
        ok, code := AtLabel(tok);
      } else if state <= 9 {
        ok, code := InArray(tok);
      } else {
        ok := false;
      }
    }

    /** The next token; what is not the lexer's stays. */
    method NextToken(buffer: string, p: nat) returns (tok: Token, q: nat, ghost r: LexRun)
      requires Valid() && !Pending(Now()) && p < |buffer|
      modifies lexer.Repr()
      ensures lexer.Valid() && Linked() && fresh(lexer.Repr() - old(lexer.Repr()))
      ensures state == old(state) && nodes == old(nodes)
      ensures r == Run(old(lexer.Now()), buffer[p..]) && r.tok == tok && q == p + r.used
      ensures Now() == old(Now()).(lex := r.l)
      ensures Ready(tok)
    {
      RunKept(lexer.Now(), buffer[p..]);
      tok, q := lexer.Next(buffer, p);
      r := LexRun(tok, lexer.Now(), q - p);
    }

    /** A token is delivered. */
    method Dispatch(tok: Token, ghost p0: Parser, buffer: string, p: nat, ghost at: nat, ghost r: LexRun)
        returns (ok: bool, code: Code)
      requires Deep(p0) && !Pending(p0) && Consistent(p0) && p < |buffer|
      requires r == Run(p0.lex, buffer[p..]) && r.tok == tok != More && at == p + r.used
      requires Ready(tok) && p0.(lex := r.l) == Now()
      modifies this, nodes, lexer.Repr()
      ensures lexer.Valid() && Linked() && fresh(nodes - old(nodes)) && lexer.Repr() <= old(lexer.Repr())
      ensures Progress(p0, buffer, p, ok, code, false, Now(), at)
    {
      ok, code := DeliverToken(tok);
      FeedDelivered(p0, buffer, p, at, r, ok, code, Now());
    }

    /** The fragment has ended. */
    method Pause(ghost p0: Parser, buffer: string, p: nat, ghost at: nat, ghost r: LexRun)
        returns (ok: bool, code: Code)
      requires Deep(p0) && !Pending(p0) && Consistent(p0) && p < |buffer|
      requires r == Run(p0.lex, buffer[p..]) && r.tok == More && at == p + r.used
      requires lexer.Valid() && p0.(lex := r.l) == Now()
      ensures Progress(p0, buffer, p, ok, code, true, Now(), at)
    {
      FeedMore(p0, buffer, p, at, r);
      ok, code := state != 0, if state == 0 then Malformed else EndCode(state);
    }

    /** After a lexer run. */
    method AfterRun(tok: Token, ghost p0: Parser, buffer: string, p: nat, at: nat, ghost r: LexRun)
        returns (ok: bool, code: Code, done: bool, q: nat)
      requires Deep(p0) && !Pending(p0) && Consistent(p0) && p < |buffer|
      requires r == Run(p0.lex, buffer[p..]) && r.tok == tok && at == p + r.used
      requires Ready(tok) && p0.(lex := r.l) == Now()
      modifies this, nodes, lexer.Repr()
      ensures lexer.Valid() && Linked() && fresh(nodes - old(nodes)) && lexer.Repr() <= old(lexer.Repr())
      ensures Progress(p0, buffer, p, ok, code, done, Now(), q)
    {
      if tok == More {
        done, q := true, at;
        ok, code := Pause(p0, buffer, p, at, r);
      } else {
        done, q := false, at;
        ok, code := Dispatch(tok, p0, buffer, p, at, r);
      }
    }

    /** One token is read and delivered. */
    method ParseToken(buffer: string, p: nat) returns (ok: bool, code: Code, done: bool, q: nat)
      requires Valid() && !Pending(Now()) && p < |buffer|
      modifies this, nodes, lexer.Repr()
      ensures Deep(old(Now())) && lexer.Valid() && Linked()
      ensures fresh(nodes - old(nodes)) && fresh(lexer.Repr() - old(lexer.Repr()))
      ensures Progress(old(Now()), buffer, p, ok, code, done, Now(), q)
    {
      ghost var p0 := Now();
      ConsistentDeep(p0);
      var tok;
      ghost var r;
      tok, q, r := NextToken(buffer, p);
      ok, code, done, q := AfterRun(tok, p0, buffer, p, q, r);
    }

    /** A container is opened, or a token read and delivered. */
    method ParseStep(buffer: string, p: nat) returns (ok: bool, code: Code, done: bool, q: nat)
      requires Valid() && p < |buffer|
      modifies this, nodes, lexer.Repr()
      ensures Deep(old(Now())) && lexer.Valid() && Linked()
      ensures fresh(nodes - old(nodes)) && fresh(lexer.Repr() - old(lexer.Repr()))
      ensures Progress(old(Now()), buffer, p, ok, code, done, Now(), q)
    {
      if state == 1 || state == 7 {
        OpenedKept(Now());
        OpenContainer();
        ok, code, done, q := true, Incomplete, false, p;
      } else {
        ok, code, done, q := ParseToken(buffer, p);
      }
    }

    /** A fragment of a document. */
    method ParseFragment(buffer: string) returns (ok: bool, code: Code)
      requires Valid()
      modifies this, nodes, lexer.Repr()
      ensures Deep(old(Now())) && lexer.Valid() && Linked()
      ensures fresh(nodes - old(nodes)) && fresh(lexer.Repr() - old(lexer.Repr()))
      ensures Feed(old(Now()), buffer) == (if ok then Fed(Now(), code) else Rejected(code))
      ensures ok ==> Consistent(Now())
    {
      ghost var p0 := Now();
      ConsistentDeep(p0);
      var p, done := 0, false;
      ok, code := true, Incomplete;
      assert buffer[0..] == buffer;
      while p < |buffer| && ok && !done
        invariant lexer.Valid() && Linked() && fresh(nodes - old(nodes)) && fresh(lexer.Repr() - old(lexer.Repr()))
        invariant Reached(p0, buffer, ok, code, done, Now(), p)
        decreases |buffer| - p, ok, !done, Rank(Now())
      {
        ok, code, done, p := ParseStep(buffer, p);
      }
      if ok && !done {
        assert buffer[p..] == [];
        code := EndCode(state);
      }
    }
  }

  /** How far the parser has got in a buffer. */
  ghost predicate Reached(p: Parser, buffer: string, ok: bool, code: Code, done: bool, now: Parser, q: nat)
    requires Deep(p)
  {
    && q <= |buffer|
    && if !ok then Feed(p, buffer) == Rejected(code)
       else if done then Feed(p, buffer) == Fed(now, code) && Consistent(now)
       else Deep(now) && Consistent(now) && Feed(p, buffer) == Feed(now, buffer[q..])
  }

  /** How far one step of the parser gets in a buffer: to a refusal, to the end, or to position `q`. */
  ghost predicate Progress(p: Parser, buffer: string, at: nat, ok: bool, code: Code, done: bool, now: Parser, q: nat)
    requires Deep(p)
  {
    && at <= q <= |buffer|
    && if !ok then Feed(p, buffer[at..]) == Rejected(code)
       else if done then Feed(p, buffer[at..]) == Fed(now, code) && Consistent(now)
       else
         && Deep(now) && Consistent(now) && Feed(p, buffer[at..]) == Feed(now, buffer[q..])
         && (q > at || Rank(now) < Rank(p))
  }

  /** A whole lexer run keeps what was collected in order. */
  lemma {:induction false} RunKept(l: Lex, s: string)
    requires Collected(l)
    ensures var r := Run(l, s);
      && Collected(r.l)
      && (r.tok == Text ==> StringText(r.l.text) && r.l.state == 0)
      && (r.tok == Number ==> NumberText(r.l.text) && r.l.state == 0)
    decreases |s|
  {
    if s != [] {
      CollectedKept(l, s[0]);
      var c := LexChar(l, s[0]);
      if c.Eat? { RunKept(c.l, s[1..]); }
    }
  }

  /** The fragment ends inside a token, or between tokens. */
  lemma FeedMore(p: Parser, buffer: string, at: nat, q: nat, r: LexRun)
    requires Deep(p) && !Pending(p) && at < |buffer| && r == Run(p.lex, buffer[at..]) && Consistent(p)
    requires r.tok == More && q == at + r.used
    ensures Progress(p, buffer, at, p.state != 0, if p.state == 0 then Malformed else EndCode(p.state), true,
        p.(lex := r.l), q)
  {
    RunKept(p.lex, buffer[at..]);
  }

  /** What feeding the rest of a buffer comes to, once its first token is delivered. */
  lemma FeedDelivered(p: Parser, buffer: string, at: nat, q: nat, r: LexRun, ok: bool, code: Code, now: Parser)
    requires Deep(p) && !Pending(p) && at < |buffer| && r == Run(p.lex, buffer[at..]) && Consistent(p)
    requires r.tok != More && q == at + r.used
    requires Deep(p.(lex := r.l)) && Deliver(p.(lex := r.l), r.tok) == if ok then Going(now) else Failed(code)
    ensures Progress(p, buffer, at, ok, code, false, now, q)
  {
    hide Deliver, Stacked, StringText, NumberText, StringState, NumberState, LexChar;
    var w := p.(lex := r.l);
    RunKept(p.lex, buffer[at..]);
    DeliverDeep(w, r.tok);
    DeliverRank(w, r.tok);
    RunRank(p.lex, buffer[at..]);
    DeliverKept(w, r.tok);
    RunLeaves(p.lex, buffer[at..]);
    assert buffer[at..][r.used..] == buffer[at + r.used..];
  }

  /** A token leaves the lexer outside any token. */
  lemma {:induction false} RunLeaves(l: Lex, s: string)
    requires Collected(l)
    ensures var r := Run(l, s); r.tok != More && r.tok != Invalid ==> r.l.state == 0
    decreases |s|
  {
    if s != [] {
      CollectedKept(l, s[0]);
      EmitState(l, s[0]);
      var c := LexChar(l, s[0]);
      if c.Eat? { RunLeaves(c.l, s[1..]); }
    }
  }

  /** What the cursor's parent is. */
  lemma AscendPlace(s: Store, p: Path)
    requires Place(s, p) && |Stack(p)| >= 2
    ensures p.Open? && p.up.Open? && p.node in s && s[p.node].parent == p.up.node
    ensures Place(s, Raised(p)) && Above(Raised(p)) == p.up.node && Stack(Raised(p)) == Up(Stack(p))
  {
    StackCursor(p);
    StackCursor(p.up);
    UpPlace(s, p);
    UpStack(p);
  }

  /** A label is itself below an object. */
  lemma AscendLabel(s: Store, p: Path)
    requires Place(s, p) && Stacked(Stack(p)) && |Stack(p)| >= 2
    ensures p.Open? && p.up.Open? && p.up.node in s
    ensures Cursor(Up(Stack(p))).kind == p.up.node.kind
    ensures p.up.node.kind == STRING ==>
      && p.up.up.Open? && s[p.up.node].parent == Above(p.up.up) && Place(s, Raised(Raised(p)))
          && Above(Raised(Raised(p))) == Above(p.up.up)
      && Stack(Raised(Raised(p))) == Up(Up(Stack(p)))
  {
    AscendPlace(s, p);
    StackCursor(Raised(p));
    StackCursor(p.up);
    var n := |Stack(p)|;
    if p.up.node.kind == STRING {
      PopStacked(Stack(p));
      assert Stack(p)[..n - 1] == Stack(p.up);
      LabelNotFirst(Stack(p.up));
      AscendPlace(s, Raised(p));
    }
  }

  /** Where the end of a container leads, in memory. */
  lemma LeavePlace(s: Store, p: Path, state: nat, lex: Lex)
    requires Place(s, p) && Stacked(Stack(p)) && p.Open? && (p.node.kind == OBJECT || p.node.kind == ARRAY)
    ensures p.node in s && s[p.node].parent == Above(p.up) && Stack(p) != []
    ensures p.up.Top? ==> Leave(Parser(state, lex, Stack(p))) == Going(Parser(99, lex, Stack(p)))
    ensures p.up.Open? ==> p.up.node in s && s[p.up.node].parent == Above(p.up.up)
    ensures p.up.Open? && p.up.node.kind != STRING ==>
      && Place(s, Raised(p)) && Above(Raised(p)) == p.up.node
      && Leave(Parser(state, lex, Stack(p))) == Going(Parser(9, lex, Stack(Raised(p))))
    ensures p.up.Open? && p.up.node.kind == STRING ==>
      && p.up.up.Open?
      && Place(s, Raised(Raised(p))) && Above(Raised(Raised(p))) == p.up.up.node
      && Leave(Parser(state, lex, Stack(p))) == Going(Parser(3, lex, Stack(Raised(Raised(p)))))
  {
    StackCursor(p);
    StackCursor(p.up);
    LeaveCases(Parser(state, lex, Stack(p)));
    if p.up.Open? {
      AscendPlace(s, p);
      AscendLabel(s, p);
    }
  }

  /** A leaf that was pushed is the last child once the cursor has moved up. */
  lemma LeafPlace(s: Store, p: Path, node: Node)
    requires Place(s, Push(p, node)) && p.Open?
    ensures Place(s, Raised(Push(p, node))) && Above(Raised(Push(p, node))) == p.node
    ensures Stack(p) != [] && Stack(Raised(Push(p, node))) == Insert(Stack(p), Leaf(node.kind, node.text))
  {
    UpPlace(s, Push(p, node));
    UpStack(Push(p, node));
    InsertUp(Stack(p), Leaf(node.kind, node.text));
  }

  lemma InsertLength(stack: seq<Json>, j: Json)
    requires stack != []
    ensures |Insert(stack, j)| == |stack|
  {
  }

  lemma InsertUp(stack: seq<Json>, j: Json)
    requires stack != []
    ensures Up(stack + [j]) == Insert(stack, j)
  {
    assert (stack + [j])[..|stack|] == stack;
  }
}

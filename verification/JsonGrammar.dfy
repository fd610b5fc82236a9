/** The texts of strings and numbers as the JSON grammar has them, and that they are the ones the lexer takes. */
module JsonGrammar {
  import opened JsonEscape
  import opened JsonLexer

  // Numbers

  /** One or more figures. */
  predicate Figures(t: string) {
    t != [] && forall i :: 0 <= i < |t| ==> '0' <= t[i] <= '9'
  }

  /** A whole number, without unnecessary zeros in front. */
  predicate Integral(t: string) {
    t == "0" || (Figures(t) && t[0] != '0')
  }

  predicate Fraction(t: string) {
    t == "" || (t[0] == '.' && Figures(t[1..]))
  }

  predicate Exponent(t: string) {
    t == "" || ((t[0] == 'e' || t[0] == 'E') && (Figures(t[1..]) || (|t| > 1 && t[1] in "+-" && Figures(t[2..]))))
  }

  /** The parts of a number: a minus sign or nothing, the whole part, fraction and exponent. */
  predicate Parts(t: string, sign: string, w: string, f: string, e: string) {
    t == sign + w + f + e && (sign == "" || sign == "-") && Integral(w) && Fraction(f) && Exponent(e)
  }

  /** A number as the grammar has it. */
  ghost predicate IsNumber(t: string) {
    exists sign, w, f, e :: Parts(t, sign, w, f, e)
  }

  // Strings

  predicate HexFigure(c: char) {
    '0' <= c <= '9' || 'a' <= c <= 'f' || 'A' <= c <= 'F'
  }

  /** What may stand between quotes: characters other than control characters, quotes and backslashes, and escapes. */
  predicate IsText(t: string)
    decreases |t|
  {
    || t == ""
    || (t[0] as int >= 32 && t[0] != '\"' && t[0] != '\\' && IsText(t[1..]))
    || (|t| >= 2 && t[0] == '\\' && t[1] in "\"\\/bfnrt" && IsText(t[2..]))
    || (|t| >= 6 && t[0] == '\\' && t[1] == 'u' && HexFigure(t[2]) && HexFigure(t[3]) && HexFigure(t[4])
        && HexFigure(t[5]) && IsText(t[6..]))
  }

  // The lexer takes exactly these numbers

  lemma {:induction false} NumberFigures(t: string, u: string, s: nat)
    requires Figures(u) && t != []
    requires NumberState(t) == s
    requires s == 17 ==> u[0] != '0'
    requires s == 17 || s == 19 || s == 20 || s == 21 || s == 22 || s == 23 || s == 24
    ensures NumberState(t + u) == if s == 17 || s == 19 then 19 else if s <= 21 then 21 else 24
    decreases |u|
  {
    var n := |u| - 1;
    assert t + u == (t + u[..n]) + [u[n]] && (t + u)[..|t| + n] == t + u[..n];
    if n > 0 {
      NumberFigures(t, u[..n], s);
    } else {
      assert t + u[..n] == t;
    }
  }

  lemma NumberOne(t: string, c: char)
    requires t != []
    ensures NumberState(t + [c]) == if NumberState(t) == 0 then 0 else NumberNext(NumberState(t), c)
  {
    assert (t + [c])[..|t|] == t;
  }

  lemma WholeTaken(sign: string, w: string)
    requires (sign == "" || sign == "-") && Integral(w)
    ensures NumberState(sign + w) == if w == "0" then 18 else 19
  {
    if w == "0" {
      if sign == "-" { NumberOne("-", '0'); }
      assert sign == "" ==> sign + w == w;
    } else if sign == "-" {
      NumberFigures("-", w, 17);
    } else {
      assert sign + w == w == [w[0]] + w[1..];
      if |w| > 1 { NumberFigures([w[0]], w[1..], 19); }
    }
  }

  lemma FractionTaken(t: string, f: string)
    requires t != "" && (NumberState(t) == 18 || NumberState(t) == 19) && Fraction(f)
    ensures NumberState(t + f) == if f == "" then NumberState(t) else 21
  {
    if f == "" {
      assert t + f == t;
    } else {
      NumberOne(t, '.');
      NumberFigures(t + ".", f[1..], 20);
      assert t + f == t + "." + f[1..];
    }
  }

  lemma ExponentTaken(t: string, e: string)
    requires t != "" && (NumberState(t) == 18 || NumberState(t) == 19 || NumberState(t) == 21) && Exponent(e)
    ensures NumberState(t + e) == if e == "" then NumberState(t) else 24
  {
    if e == "" {
      assert t + e == t;
    } else {
      NumberOne(t, e[0]);
      assert e == [e[0]] + e[1..] && t + e == t + [e[0]] + e[1..];
      assert |e| > 1 ==> e[1..][0] == e[1] && e[1..][1..] == e[2..];
      hide NumberState, Figures;
      PowerTaken(t + [e[0]], e[1..]);
    }
  }

  /** The figures of an exponent, with a sign or without. */
  lemma PowerTaken(t: string, r: string)
    requires t != "" && NumberState(t) == 22
    requires Figures(r) || (r != "" && (r[0] == '-' || r[0] == '+') && Figures(r[1..]))
    ensures NumberState(t + r) == 24
  {
    if Figures(r) {
      NumberFigures(t, r, 22);
    } else {
      NumberOne(t, r[0]);
      NumberFigures(t + [r[0]], r[1..], 23);
      assert t + r == t + [r[0]] + r[1..];
    }
  }

  lemma NumberTaken(t: string, sign: string, w: string, f: string, e: string)
    requires Parts(t, sign, w, f, e)
    ensures NumberText(t)
  {
    WholeTaken(sign, w);
    FractionTaken(sign + w, f);
    ExponentTaken(sign + w + f, e);
  }

  /** What has been read of a number, in each of the lexer's states. */
  predicate Partly(t: string, sign: string, w: string, f: string, e: string, state: nat) {
    && t == sign + w + f + e && (sign == "" || sign == "-")
    && match state
       case 17 => sign == "-" && w == "" && f == "" && e == ""
       case 18 => w == "0" && f == "" && e == ""
       case 19 => Figures(w) && w[0] != '0' && f == "" && e == ""
       case 20 => Integral(w) && f == "." && e == ""
       case 21 => Integral(w) && f != "" && Fraction(f) && e == ""
       case 22 => Integral(w) && Fraction(f) && |e| == 1 && e[0] in "eE"
       case 23 => Integral(w) && Fraction(f) && |e| == 2 && e[0] in "eE" && e[1] in "+-"
       case 24 => Integral(w) && Fraction(f) && e != "" && Exponent(e)
       case _ => false
  }

  lemma {:induction false} NumberRead(t: string) returns (sign: string, w: string, f: string, e: string)
    requires NumberState(t) != 0
    ensures Partly(t, sign, w, f, e, NumberState(t))
    decreases |t|
  {
    var n := |t| - 1;
    if n == 0 {
      sign, w, f, e := if t == "-" then "-" else "", if t == "-" then "" else t, "", "";
    } else {
      var c := t[n];
      assert t == t[..n] + [c];
      NumberOne(t[..n], c);
      sign, w, f, e := NumberRead(t[..n]);
      var s := NumberState(t[..n]);
      hide NumberState;
      if s <= 19 && NumberNext(s, c) <= 19 {
        MoreWhole(t[..n], c, sign, w, s);
        w := w + [c];
      } else if s <= 21 && NumberNext(s, c) <= 21 {
        MoreFraction(t[..n], c, sign, w, f, s);
        f := f + [c];
      } else {
        MoreExponent(t[..n], c, sign, w, f, e, s);
        e := e + [c];
      }
    }
  }

  lemma MoreWhole(t: string, c: char, sign: string, w: string, s: nat)
    requires 17 <= s <= 19 && Partly(t, sign, w, "", "", s) && 17 <= NumberNext(s, c) <= 19
    ensures Partly(t + [c], sign, w + [c], "", "", NumberNext(s, c))
  {
  }

  lemma MoreFraction(t: string, c: char, sign: string, w: string, f: string, s: nat)
    requires 18 <= s <= 21 && Partly(t, sign, w, f, "", s) && 20 <= NumberNext(s, c) <= 21
    ensures Partly(t + [c], sign, w, f + [c], "", NumberNext(s, c))
  {
    assert f != "" ==> (f + [c])[1..] == f[1..] + [c];
  }

  lemma MoreExponent(t: string, c: char, sign: string, w: string, f: string, e: string, s: nat)
    requires 18 <= s <= 24 && Partly(t, sign, w, f, e, s) && 22 <= NumberNext(s, c)
    ensures Partly(t + [c], sign, w, f, e + [c], NumberNext(s, c))
  {
    var g := e + [c];
    if |e| >= 1 { assert g[1..] == e[1..] + [c]; }
    if |e| >= 2 { assert g[2..] == e[2..] + [c]; }
    assert t + [c] == sign + w + f + g;
    hide Figures, Integral, Fraction;
  }

  /** The lexer takes a text as a number exactly if the grammar does. */
  lemma NumberByGrammar(t: string)
    ensures NumberText(t) <==> IsNumber(t)
  {
    if NumberText(t) {
      var sign, w, f, e := NumberRead(t);
      hide NumberState;
      assert Parts(t, sign, w, f, e);
    }
    if IsNumber(t) {
      var sign, w, f, e :| Parts(t, sign, w, f, e);
      NumberTaken(t, sign, w, f, e);
    }
  }

  // And exactly these strings

  lemma {:induction false} TextByWalk(t: string)
    ensures Walk(1, t) == 1 <==> IsText(t)
    decreases |t|
  {
    if t != "" {
      if t[0] != '\\' {
        TextByWalk(t[1..]);
      } else if |t| >= 2 {
        assert t[1..][1..] == t[2..];
        if t[1] == 'u' {
          HexByWalk(t[2..]);
          if |t| >= 6 {
            assert t[2..][4..] == t[6..];
            TextByWalk(t[6..]);
          }
        } else {
          assert t[1] in "\"\\/bfnrt" <==> Escapable(t[1]);
          TextByWalk(t[2..]);
        }
      }
    }
  }

  lemma HexByWalk(t: string)
    ensures Walk(3, t) == 1 <==>
      |t| >= 4 && HexFigure(t[0]) && HexFigure(t[1]) && HexFigure(t[2]) && HexFigure(t[3]) && Walk(1, t[4..]) == 1
  {
    if Walk(3, t) == 1 {
      WalkHex(t);
    } else if |t| >= 4 && HexFigure(t[0]) && HexFigure(t[1]) && HexFigure(t[2]) && HexFigure(t[3]) {
      WalkFour(t[0], t[1], t[2], t[3]);
      assert t == [t[0], t[1], t[2], t[3]] + t[4..];
      WalkAppend(3, [t[0], t[1], t[2], t[3]], t[4..]);
    }
  }

  /** The lexer takes a text between quotes exactly if the grammar does. */
  lemma TextByGrammar(t: string)
    ensures StringText(t) <==> IsText(t)
  {
    WalkIsState(t);
    TextByWalk(t);
  }
}

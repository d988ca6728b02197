/** How tightly the operators of KISS VM bind, stated on the token kinds themselves, and what the smallest
    expressions are read as. */
module Precedence {
  import opened Ast
  import opened Grammar

  predicate Multiplicative(k: TokenType) { k in {MULTIPLY, DIVIDE, MODULO} }

  predicate Additive(k: TokenType) { k in {PLUS, MINUS} }

  predicate Comparing(k: TokenType) { k in {EQ, NEQ, LT, GT, LTE, GTE} }

  predicate Conjoining(k: TokenType) { k in {AND, NAND} }

  predicate Disjoining(k: TokenType) { k in {OR, NOR, XOR} }

  predicate Operator(k: TokenType) {
    Multiplicative(k) || Additive(k) || Comparing(k) || Conjoining(k) || Disjoining(k)
  }

  // o binds tighter than p: multiplicative, additive, comparing, conjoining, disjoining.
  predicate Tighter(o: TokenType, p: TokenType) {
    || (Multiplicative(o) && (Additive(p) || Comparing(p) || Conjoining(p) || Disjoining(p)))
    || (Additive(o) && (Comparing(p) || Conjoining(p) || Disjoining(p)))
    || (Comparing(o) && (Conjoining(p) || Disjoining(p)))
    || (Conjoining(o) && Disjoining(p))
  }

  // a is read as x: a literal, a variable, a call or anything in parentheses, or one of these after a minus.
  ghost predicate Operand(a: seq<Token>, x: Node) {
    || Derives(EmptyCalls, 7, a, x)
    || (|a| > 1 && a[0].kind == MINUS && x.Unary? && x.tok == a[0] && Derives(EmptyCalls, 7, a[1..], x.operand))
  }

  // The parser reads all of s, up to the end of the script, as e.
  ghost predicate ReadAs(s: seq<Token>, e: Node) {
    ParseAt(s + [EOF], 0, 0) == Got(e, |s|)
  }

  lemma DerivedIsRead(s: seq<Token>, e: Node)
    requires s != [] && Derives(EmptyCalls, 0, s, e)
    ensures ReadAs(s, e)
  {
    ParseInvertsGrammar(EmptyCalls, s, [EOF], e);
  }

  lemma OperandDerives(a: seq<Token>, x: Node, level: Level)
    requires Operand(a, x) && level <= 6
    ensures a != [] && Derives(EmptyCalls, level, a, x)
  {
    if Derives(EmptyCalls, 7, a, x) {
      DerivesLooser(EmptyCalls, 7, 6, a, x);
    }
    DerivesLooser(EmptyCalls, 6, level, a, x);
    FirstToken(EmptyCalls, level, a, x);
  }

  lemma LevelOfGroup(k: TokenType)
    requires Operator(k)
    ensures Multiplicative(k) <==> OpLevel(k) == 5
    ensures Additive(k) <==> OpLevel(k) == 4
    ensures Comparing(k) <==> OpLevel(k) == 3
    ensures Conjoining(k) <==> OpLevel(k) == 1
    ensures Disjoining(k) <==> OpLevel(k) == 0
  {
  }

  lemma LevelsOfGroups(o: TokenType, p: TokenType)
    requires Operator(o) && Operator(p)
    ensures 0 <= OpLevel(o) <= 5 && 0 <= OpLevel(p) <= 5
    ensures Tighter(o, p) <==> OpLevel(o) > OpLevel(p)
    ensures (Conjoining(o) || Disjoining(o)) <==> OpLevel(o) < 2
  {
    LevelOfGroup(o);
    LevelOfGroup(p);
  }

  lemma OperatorDerives(a: seq<Token>, x: Node, o: Token, b: seq<Token>, y: Node, level: Level)
    requires Operand(a, x) && Operand(b, y) && Operator(o.kind) && level <= OpLevel(o.kind)
    ensures Derives(EmptyCalls, level, a + [o] + b, Binary(o, x, y))
  {
    var l: Level := OpLevel(o.kind);
    OperandDerives(a, x, l);
    OperandDerives(b, y, l + 1);
    BinaryIntro(EmptyCalls, l, a, o, b, x, y);
    DerivesLooser(EmptyCalls, l, level, a + [o] + b, Binary(o, x, y));
  }

  // Main result: of two operators, the tighter is the inner one on either side, and of two of one group
  // the left.
  lemma TwoOperators(a: seq<Token>, x: Node, o: Token, b: seq<Token>, y: Node, p: Token, c: seq<Token>, z: Node)
    requires Operand(a, x) && Operand(b, y) && Operand(c, z) && Operator(o.kind) && Operator(p.kind)
    ensures ReadAs(a + [o] + b + [p] + c, if Tighter(p.kind, o.kind) then Binary(o, x, Binary(p, y, z)) else Binary(p, Binary(o, x, y), z))
  {
    LevelsOfGroups(o.kind, p.kind);
    LevelsOfGroups(p.kind, o.kind);
    var l: Level, m: Level := OpLevel(o.kind), OpLevel(p.kind);
    if l < m {
      OperatorDerives(b, y, p, c, z, l + 1);
      OperandDerives(a, x, l);
      BinaryIntro(EmptyCalls, l, a, o, b + [p] + c, x, Binary(p, y, z));
      assert a + [o] + (b + [p] + c) == a + [o] + b + [p] + c;
      DerivesLooser(EmptyCalls, l, 0, a + [o] + b + [p] + c, Binary(o, x, Binary(p, y, z)));
    } else {
      OperatorDerives(a, x, o, b, y, m);
      OperandDerives(c, z, m + 1);
      BinaryIntro(EmptyCalls, m, a + [o] + b, p, c, Binary(o, x, y), z);
      DerivesLooser(EmptyCalls, m, 0, a + [o] + b + [p] + c, Binary(p, Binary(o, x, y), z));
    }
    DerivedIsRead(a + [o] + b + [p] + c, if Tighter(p.kind, o.kind) then Binary(o, x, Binary(p, y, z)) else Binary(p, Binary(o, x, y), z));
  }

  // NOT takes everything up to the next conjoining or disjoining operator, and may stand after one; a minus
  // takes the next primary alone.
  lemma PrefixesBind(t: Token, a: seq<Token>, x: Node, o: Token, b: seq<Token>, y: Node)
    requires Operand(a, x) && Operand(b, y) && Operator(o.kind)
    ensures t.kind == NOT && (Conjoining(o.kind) || Disjoining(o.kind)) ==>
              ReadAs([t] + a + [o] + b, Binary(o, Unary(t, x), y)) && ReadAs(a + [o] + ([t] + b), Binary(o, x, Unary(t, y)))
    ensures t.kind == NOT && !Conjoining(o.kind) && !Disjoining(o.kind) ==> ReadAs([t] + a + [o] + b, Unary(t, Binary(o, x, y)))
    ensures t.kind == MINUS && Derives(EmptyCalls, 7, a, x) ==> ReadAs([t] + a + [o] + b, Binary(o, Unary(t, x), y))
  {
    if t.kind == NOT {
      NotBinds(t, a, x, o, b, y);
    } else if t.kind == MINUS && Derives(EmptyCalls, 7, a, x) {
      assert ([t] + a)[0] == t && ([t] + a)[1..] == a;
      OperandDerives(a, x, 0);
      OperatorDerives([t] + a, Unary(t, x), o, b, y, 0) by {
        LevelsOfGroups(o.kind, o.kind);
      }
      DerivedIsRead([t] + a + [o] + b, Binary(o, Unary(t, x), y));
    }
  }

  lemma NotBinds(t: Token, a: seq<Token>, x: Node, o: Token, b: seq<Token>, y: Node)
    requires t.kind == NOT && Operand(a, x) && Operand(b, y) && Operator(o.kind)
    ensures if Conjoining(o.kind) || Disjoining(o.kind) then
              ReadAs([t] + a + [o] + b, Binary(o, Unary(t, x), y)) && ReadAs(a + [o] + ([t] + b), Binary(o, x, Unary(t, y)))
            else ReadAs([t] + a + [o] + b, Unary(t, Binary(o, x, y)))
  {
    LevelsOfGroups(o.kind, o.kind);
    var l: Level := OpLevel(o.kind);
    if l < 2 {
      NotDerives(t, a, x, l);
      NotDerives(t, b, y, l + 1);
      OperandDerives(a, x, l);
      OperandDerives(b, y, l + 1);
      BinaryIntro(EmptyCalls, l, [t] + a, o, b, Unary(t, x), y);
      BinaryIntro(EmptyCalls, l, a, o, [t] + b, x, Unary(t, y));
      DerivesLooser(EmptyCalls, l, 0, [t] + a + [o] + b, Binary(o, Unary(t, x), y));
      DerivesLooser(EmptyCalls, l, 0, a + [o] + ([t] + b), Binary(o, x, Unary(t, y)));
      DerivedIsRead([t] + a + [o] + b, Binary(o, Unary(t, x), y));
      DerivedIsRead(a + [o] + ([t] + b), Binary(o, x, Unary(t, y)));
    } else {
      OperatorDerives(a, x, o, b, y, 2);
      PrefixIntro(EmptyCalls, 2, t, a + [o] + b, Binary(o, x, y));
      assert [t] + (a + [o] + b) == [t] + a + [o] + b;
      DerivesLooser(EmptyCalls, 2, 0, [t] + a + [o] + b, Unary(t, Binary(o, x, y)));
      DerivedIsRead([t] + a + [o] + b, Unary(t, Binary(o, x, y)));
    }
  }

  lemma NotDerives(t: Token, a: seq<Token>, x: Node, level: Level)
    requires t.kind == NOT && Operand(a, x) && level <= 2
    ensures Derives(EmptyCalls, level, [t] + a, Unary(t, x))
  {
    OperandDerives(a, x, 2);
    PrefixIntro(EmptyCalls, 2, t, a, x);
    DerivesLooser(EmptyCalls, 2, level, [t] + a, Unary(t, x));
  }

  // A literal is itself, TRUE and no other text true; an identifier is a variable of that name.
  lemma LeavesAreRead(t: Token)
    ensures t.kind == BOOLEAN_LITERAL ==> ReadAs([t], BoolLit(t, t.value == "TRUE")) && Operand([t], BoolLit(t, t.value == "TRUE"))
    ensures t.kind == NUMBER_LITERAL ==> ReadAs([t], NumLit(t)) && Operand([t], NumLit(t))
    ensures t.kind == HEX_LITERAL ==> ReadAs([t], HexLit(t)) && Operand([t], HexLit(t))
    ensures t.kind == STRING_LITERAL ==> ReadAs([t], StrLit(t)) && Operand([t], StrLit(t))
    ensures t.kind == IDENTIFIER ==> ReadAs([t], Var(t, t.value)) && Operand([t], Var(t, t.value))
  {
    if IsLeafToken(t) {
      assert Derives(EmptyCalls, 7, [t], Leaf(t));
      DerivesLooser(EmptyCalls, 7, 0, [t], Leaf(t));
      DerivedIsRead([t], Leaf(t));
    }
  }

  // Parentheses change nothing but the grouping.
  lemma ParenthesesAreRead(s: seq<Token>, e: Node)
    requires s != [] && Derives(EmptyCalls, 0, s, e)
    ensures Operand([Token(LPAREN, "(")] + s + [Token(RPAREN, ")")], e)
  {
    ParenIntro(EmptyCalls, s, e);
  }

  function Listed(parts: seq<seq<Token>>): seq<Token> {
    if parts == [] then [] else if |parts| == 1 then parts[0] else parts[0] + [Token(COMMA, ",")] + Listed(parts[1..])
  }

  // Capitals: the small letters a to z shifted, every other character kept.
  lemma CapitalsAre(s: string, i: nat)
    requires i < |s|
    ensures 97 <= s[i] as int <= 122 ==> Upper(s)[i] as int == s[i] as int - 32
    ensures !(97 <= s[i] as int <= 122) ==> Upper(s)[i] == s[i]
  {
  }

  // A call has its arguments in the order they are written, under its name in capitals.
  lemma CallsAreRead(f: Token, parts: seq<seq<Token>>, es: seq<Node>)
    requires f.kind == IDENTIFIER && (f.value == "" || f.value[0] != '@') && |parts| == |es|
    requires forall i | 0 <= i < |parts| :: parts[i] != [] && Derives(EmptyCalls, 0, parts[i], es[i])
    ensures ReadAs([f, Token(LPAREN, "(")] + Listed(parts) + [Token(RPAREN, ")")], Call(f, Upper(f.value), es))
  {
    ListDerives(parts, es);
    CallIntro(EmptyCalls, f, Listed(parts), es);
    var s := [f, Token(LPAREN, "(")] + Listed(parts) + [Token(RPAREN, ")")];
    DerivesLooser(EmptyCalls, 7, 0, s, Call(f, Upper(f.value), es));
    DerivedIsRead(s, Call(f, Upper(f.value), es));
  }

  lemma {:induction false} ListDerives(parts: seq<seq<Token>>, es: seq<Node>)
    requires |parts| == |es| && forall i | 0 <= i < |parts| :: parts[i] != [] && Derives(EmptyCalls, 0, parts[i], es[i])
    ensures DerivesArgs(EmptyCalls, Listed(parts), es)
    decreases |parts|
  {
    if parts != [] {
      var s, k := Listed(parts), |parts[0]|;
      ListDerives(parts[1..], es[1..]);
      assert s[..k] == parts[0];
      if |parts| == 1 {
        assert s[k..] == Listed(parts[1..]);
      } else {
        assert s[k].kind == COMMA && s[k + 1..] == Listed(parts[1..]);
      }
      ArgsFrom(EmptyCalls, s, es, k);
    }
  }

  // 1 + 2 * 3.
  lemma OnePlusTwoTimesThree(one: Token, plus: Token, two: Token, times: Token, three: Token)
    requires one.kind == two.kind == three.kind == NUMBER_LITERAL && plus.kind == PLUS && times.kind == MULTIPLY
    ensures ReadAs([one, plus, two, times, three], Binary(plus, NumLit(one), Binary(times, NumLit(two), NumLit(three))))
  {
    LeavesAreRead(one);
    LeavesAreRead(two);
    LeavesAreRead(three);
    TwoOperators([one], NumLit(one), plus, [two], NumLit(two), times, [three], NumLit(three));
    assert [one] + [plus] + [two] + [times] + [three] == [one, plus, two, times, three];
  }
}

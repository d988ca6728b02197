/** The expression parser: a cursor into the token list, advanced by consume,
    one method per rule. Each is proved equal to the descent in Grammar. */
module Parsing {
  import opened Bytes
  import opened Ast
  import opened Grammar

  class Parser {
    const tokens: seq<Token>
    var pos: nat

    constructor (ts: seq<Token>)
      ensures pos == 0 && tokens == ts + [EOF]
    {
      tokens := ts + [EOF];
      pos := 0;
    }

    // The method's result r is what the descent finds from `from` at a level.
    ghost predicate Agrees(from: nat, level: Level, r: Result<Node>)
      reads this
    {
      match ParseAt(tokens, from, level)
      case Got(e, q) => r == Ok(e) && pos == q
      case Failed => r.Err?
    }

    // Inside a level's loop, with `left` folded so far.
    ghost predicate Folding(from: nat, level: Level, left: Node)
      reads this
    {
      level < 7 && pos <= |tokens| && ParseAt(tokens, from, level) == Fold(tokens, pos, level, left)
    }

    function Peek(): Token
      reads this
      requires tokens != []
    {
      if pos < |tokens| then tokens[pos] else tokens[|tokens| - 1]
    }

    predicate Check(k: TokenType)
      reads this
    {
      pos < |tokens| && tokens[pos].kind == k
    }

    predicate AtComparison(): (b: bool)
      reads this
      ensures b == (pos < |tokens| && IsOp(3, tokens[pos].kind))
    {
      Check(EQ) || Check(NEQ) || Check(LT) || Check(GT) || Check(LTE) || Check(GTE)
    }

    // The next token is an operator of the level.
    predicate AtOperator(level: Level): (b: bool)
      reads this
      ensures b == (pos < |tokens| && IsOp(level, tokens[pos].kind))
    {
      match level
      case 0 => Check(OR) || Check(NOR) || Check(XOR)
      case 1 => Check(AND) || Check(NAND)
      case 3 => AtComparison()
      case 4 => Check(PLUS) || Check(MINUS)
      case 5 => Check(MULTIPLY) || Check(DIVIDE) || Check(MODULO)
      case _ => false
    }

    method Consume() returns (t: Token)
      requires tokens != []
      modifies this`pos
      ensures t == old(Peek())
      ensures pos == if old(pos) < |tokens| then old(pos) + 1 else old(pos)
    {
      if pos < |tokens| {
        t := tokens[pos];
        pos := pos + 1;
      } else {
        t := tokens[|tokens| - 1];
      }
    }

    method ParseExpr() returns (r: Result<Node>)
      requires tokens != []
      modifies this`pos
      ensures Agrees(old(pos), 0, r)
      decreases |tokens| - pos, 9
    {
      r := ParseOr();
    }

    method ParseOr() returns (r: Result<Node>)
      requires tokens != []
      modifies this`pos
      ensures Agrees(old(pos), 0, r)
      decreases |tokens| - pos, 8
    {
      ghost var from := pos;
      r := ParseAnd();
      while r.Ok? && AtOperator(0)
        invariant r.Ok? ==> from < pos && Folding(from, 0, r.value)
        invariant r.Err? ==> ParseAt(tokens, from, 0).Failed?
        decreases r.Ok?, |tokens| - pos
      {
        var op := Consume();
        var right := ParseAnd();
        r := if right.Ok? then Ok(Binary(op, r.value, right.value)) else right;
      }
    }

    method ParseAnd() returns (r: Result<Node>)
      requires tokens != []
      modifies this`pos
      ensures Agrees(old(pos), 1, r)
      decreases |tokens| - pos, 7
    {
      ghost var from := pos;
      r := ParseNot();
      while r.Ok? && AtOperator(1)
        invariant r.Ok? ==> from < pos && Folding(from, 1, r.value)
        invariant r.Err? ==> ParseAt(tokens, from, 1).Failed?
        decreases r.Ok?, |tokens| - pos
      {
        var op := Consume();
        var right := ParseNot();
        r := if right.Ok? then Ok(Binary(op, r.value, right.value)) else right;
      }
    }

    method ParseNot() returns (r: Result<Node>)
      requires tokens != []
      modifies this`pos
      ensures Agrees(old(pos), 2, r)
      decreases |tokens| - pos, 6
    {
      if Check(NOT) {
        var op := Consume();
        r := ParseNot();
        return if r.Ok? then Ok(Unary(op, r.value)) else r;
      }
      PrefixAbsent(tokens, pos, 2);
      r := ParseCmp();
    }

    method ParseCmp() returns (r: Result<Node>)
      requires tokens != []
      modifies this`pos
      ensures Agrees(old(pos), 3, r)
      decreases |tokens| - pos, 5
    {
      ghost var from := pos;
      r := ParseAdd();
      while r.Ok? && AtOperator(3)
        invariant r.Ok? ==> from < pos && Folding(from, 3, r.value)
        invariant r.Err? ==> ParseAt(tokens, from, 3).Failed?
        decreases r.Ok?, |tokens| - pos
      {
        var op := Consume();
        var right := ParseAdd();
        r := if right.Ok? then Ok(Binary(op, r.value, right.value)) else right;
      }
    }

    method ParseAdd() returns (r: Result<Node>)
      requires tokens != []
      modifies this`pos
      ensures Agrees(old(pos), 4, r)
      decreases |tokens| - pos, 4
    {
      ghost var from := pos;
      r := ParseMul();
      while r.Ok? && AtOperator(4)
        invariant r.Ok? ==> from < pos && Folding(from, 4, r.value)
        invariant r.Err? ==> ParseAt(tokens, from, 4).Failed?
        decreases r.Ok?, |tokens| - pos
      {
        var op := Consume();
        var right := ParseMul();
        r := if right.Ok? then Ok(Binary(op, r.value, right.value)) else right;
      }
    }

    method ParseMul() returns (r: Result<Node>)
      requires tokens != []
      modifies this`pos
      ensures Agrees(old(pos), 5, r)
      decreases |tokens| - pos, 3
    {
      ghost var from := pos;
      r := ParseUnary();
      while r.Ok? && AtOperator(5)
        invariant r.Ok? ==> from < pos && Folding(from, 5, r.value)
        invariant r.Err? ==> ParseAt(tokens, from, 5).Failed?
        decreases r.Ok?, |tokens| - pos
      {
        var op := Consume();
        var right := ParseUnary();
        r := if right.Ok? then Ok(Binary(op, r.value, right.value)) else right;
      }
    }

    method ParseUnary() returns (r: Result<Node>)
      requires tokens != []
      modifies this`pos
      ensures Agrees(old(pos), 6, r)
      decreases |tokens| - pos, 2
    {
      if Check(MINUS) {
        var op := Consume();
        r := ParsePrimary();
        return if r.Ok? then Ok(Unary(op, r.value)) else r;
      }
      PrefixAbsent(tokens, pos, 6);
      r := ParsePrimary();
    }

    method ParsePrimary() returns (r: Result<Node>)
      requires tokens != []
      modifies this`pos
      ensures Agrees(old(pos), 7, r)
      decreases |tokens| - pos, 1
    {
      var t := Peek();
      if pos >= |tokens| {
        return Err("unexpected token");
      }
      assert ParseAt(tokens, pos, 7) == ReadPrimary(tokens, pos);
      if t.kind == BOOLEAN_LITERAL {
        var _ := Consume();
        return Ok(BoolLit(t, t.value == "TRUE"));
      }
      if t.kind == NUMBER_LITERAL {
        var _ := Consume();
        return Ok(NumLit(t));
      }
      if t.kind == HEX_LITERAL {
        var _ := Consume();
        return Ok(HexLit(t));
      }
      if t.kind == STRING_LITERAL {
        var _ := Consume();
        return Ok(StrLit(t));
      }
      if t.kind == IDENTIFIER {
        var _ := Consume();
        if t.value != "" && t.value[0] == '@' {
          return Ok(Var(t, t.value));
        }
        if Check(LPAREN) {
          r := ParseFuncall(t);
          return;
        }
        return Ok(Var(t, t.value));
      }
      if t.kind == LPAREN {
        var _ := Consume();
        r := ParseExpr();
        if r.Err? {
          return;
        }
        if !Check(RPAREN) {
          return Err("expected )");
        }
        var _ := Consume();
        return;
      }
      r := Err("unexpected token");
    }

    method ParseFuncall(name: Token) returns (r: Result<Node>)
      requires Check(LPAREN)
      modifies this`pos
      ensures match ParseArgs(tokens, old(pos) + 1)
              case GotArgs(args, q) => r == Ok(Call(name, Upper(name.value), args)) && pos == q
              case FailedArgs => r.Err?
      decreases |tokens| - pos, 0
    {
      var upper := Upper(name.value);
      var _ := Consume();
      var args: seq<Node> := [];
      if !Check(RPAREN) {
        var arg := ParseExpr();
        if arg.Err? {
          return arg;
        }
        var more := ParseMoreArgs(arg.value);
        if more.Err? {
          return Err(more.error);
        }
        args := more.value;
      }
      var _ := Consume();
      r := Ok(Call(name, upper, args));
    }

    // The arguments after the first, up to the closing parenthesis.
    method ParseMoreArgs(first: Node) returns (r: Result<seq<Node>>)
      requires tokens != [] && pos <= |tokens|
      modifies this`pos
      ensures match MoreArgs(tokens, old(pos), [first])
              case GotArgs(args, q) => r == Ok(args) && Check(RPAREN) && pos + 1 == q
              case FailedArgs => r.Err?
      decreases |tokens| - pos, 10
    {
      var args := [first];
      ghost var from := pos;
      while true
        invariant from <= pos <= |tokens| && MoreArgs(tokens, from, [first]) == MoreArgs(tokens, pos, args)
        decreases |tokens| - pos
      {
        if Check(COMMA) {
          var _ := Consume();
        }
        if Check(RPAREN) {
          return Ok(args);
        }
        var arg := ParseExpr();
        if arg.Err? {
          return Err(arg.error);
        }
        args := args + [arg.value];
      }
    }
  }
}

/**
 * What KISS VM scripts mean, law by law: the truth of values, what each operator yields on any operands,
 * and what each statement does to a run. By KissVm.RunIsMeaning every law holds of metered runs too.
 */
module KissVmLaws {
  import opened Ast
  import opened Bytes
  import opened KissVm

  // ---- truth ---------------------------------------------------------------------------

  predicate Truth(vm: Vm, v: Value) {
    || v == Boolean(true)
    || (v.Number? && !vm.isZero(v.n))
    || (v.Hex? && |v.bytes| > 0)
    || (v.Script? && |v.text| > 0)
  }

  ghost predicate Means(vm: Vm, n: Node, env: Env, v: Value) {
    Meaning(vm, n, env).out == Got(v)
  }

  // ---- operators -----------------------------------------------------------------------

  lemma LogicLaw(vm: Vm, n: Node, env: Env, l: Value, r: Value)
    requires n.Binary? && Means(vm, n.left, env, l) && Means(vm, n.right, env, r)
    ensures n.tok.kind == AND ==> Means(vm, n, env, Boolean(Truth(vm, l) && Truth(vm, r)))
    ensures n.tok.kind == OR ==> Means(vm, n, env, Boolean(Truth(vm, l) || Truth(vm, r)))
    ensures n.tok.kind == NAND ==> Means(vm, n, env, Boolean(!Truth(vm, l) || !Truth(vm, r)))
    ensures n.tok.kind == NOR ==> Means(vm, n, env, Boolean(!Truth(vm, l) && !Truth(vm, r)))
    ensures n.tok.kind == XOR ==> Means(vm, n, env, Boolean(Truth(vm, l) <==> !Truth(vm, r)))
  {
  }

  // A left operand that decides leaves the right one unvisited, whatever it would do.
  lemma SkipLaw(vm: Vm, n: Node, env: Env, l: Value)
    requires n.Binary? && Means(vm, n.left, env, l)
    ensures n.tok.kind == AND && !Truth(vm, l) ==> Meaning(vm, n, env) == Priced(Got(Boolean(false)), 1 + Meaning(vm, n.left, env).cost)
    ensures n.tok.kind == NAND && !Truth(vm, l) ==> Meaning(vm, n, env) == Priced(Got(Boolean(true)), 1 + Meaning(vm, n.left, env).cost)
    ensures n.tok.kind == OR && Truth(vm, l) ==> Meaning(vm, n, env) == Priced(Got(Boolean(true)), 1 + Meaning(vm, n.left, env).cost)
    ensures n.tok.kind == NOR && Truth(vm, l) ==> Meaning(vm, n, env) == Priced(Got(Boolean(false)), 1 + Meaning(vm, n.left, env).cost)
  {
  }

  // NAND and NOR are the negations of AND and OR on the same operands, faults and skipped operands included.
  lemma NegationLaw(vm: Vm, n: Node, m: Node, env: Env)
    requires n.Binary? && m.Binary? && n.left == m.left && n.right == m.right
    requires (n.tok.kind == AND && m.tok.kind == NAND) || (n.tok.kind == OR && m.tok.kind == NOR)
    ensures Meaning(vm, n, env).cost == Meaning(vm, m, env).cost
    ensures Meaning(vm, n, env).out.Fault? <==> Meaning(vm, m, env).out.Fault?
    ensures forall b :: Means(vm, n, env, Boolean(b)) <==> Means(vm, m, env, Boolean(!b))
  {
    var l, r := Meaning(vm, n.left, env), Meaning(vm, n.right, env);
    if l.out.Got? && r.out.Got? {
      LogicLaw(vm, n, env, l.out.value, r.out.value);
      LogicLaw(vm, m, env, l.out.value, r.out.value);
    }
  }

  predicate SameType(l: Value, r: Value) {
    || (l.Boolean? && r.Boolean?) || (l.Number? && r.Number?) || (l.Hex? && r.Hex?) || (l.Script? && r.Script?)
  }

  // Values of one type are equal by content, values of two types by how they are shown.
  lemma EqualityLaw(vm: Vm, n: Node, env: Env, l: Value, r: Value)
    requires n.Binary? && n.tok.kind == EQ && Means(vm, n.left, env, l) && Means(vm, n.right, env, r)
    ensures SameType(l, r) && !l.Number? ==> Means(vm, n, env, Boolean(l == r))
    ensures SameType(l, r) && l.Number? ==> Means(vm, n, env, Boolean(vm.relate(EQ, l.n, r.n)))
    ensures !SameType(l, r) ==> Means(vm, n, env, Boolean(vm.show(l) == vm.show(r)))
  {
  }

  // Comparisons and arithmetic reach the decimal operations with the operands in order, and fault on
  // anything but two numbers.
  lemma DecimalLaw(vm: Vm, n: Node, env: Env, l: Value, r: Value)
    requires n.Binary? && Means(vm, n.left, env, l) && Means(vm, n.right, env, r)
    requires n.tok.kind in {LT, GT, LTE, GTE, PLUS, MINUS, MULTIPLY, DIVIDE, MODULO}
    ensures !l.Number? || !r.Number? ==> Meaning(vm, n, env).out == Fault
    ensures l.Number? && r.Number? && n.tok.kind in {LT, GT, LTE, GTE} ==>
              Means(vm, n, env, Boolean(vm.relate(n.tok.kind, l.n, r.n)))
    ensures l.Number? && r.Number? && n.tok.kind in {PLUS, MINUS, MULTIPLY, DIVIDE, MODULO} ==>
              var z := vm.compute(n.tok.kind, l.n, r.n);
              if z.Some? then Means(vm, n, env, Number(z.value)) else Meaning(vm, n, env).out == Fault
  {
  }

  // An operand that faults makes the operator fault, unless a left operand has already decided.
  lemma FaultLaw(vm: Vm, n: Node, env: Env)
    requires n.Binary?
    ensures Meaning(vm, n.left, env).out == Fault ==> Meaning(vm, n, env).out == Fault
    ensures n.tok.kind !in {AND, OR, NAND, NOR} && Meaning(vm, n.right, env).out == Fault ==> Meaning(vm, n, env).out == Fault
  {
  }

  // There are no other operators; an inequality faults, too.
  lemma NoOtherOperator(vm: Vm, n: Node, env: Env)
    requires n.Binary?
    requires n.tok.kind !in {AND, OR, NAND, NOR, XOR, EQ, LT, GT, LTE, GTE, PLUS, MINUS, MULTIPLY, DIVIDE, MODULO}
    ensures Meaning(vm, n, env).out == Fault
  {
  }

  lemma UnaryLaw(vm: Vm, n: Node, env: Env, v: Value)
    requires n.Unary? && Means(vm, n.operand, env, v)
    ensures n.tok.kind == NOT ==> Means(vm, n, env, Boolean(!Truth(vm, v)))
    ensures n.tok.kind == MINUS && v.Number? ==>
              var z := vm.compute(MINUS, vm.zero, v.n);
              if z.Some? then Means(vm, n, env, Number(z.value)) else Meaning(vm, n, env).out == Fault
    ensures n.tok.kind != NOT && (n.tok.kind != MINUS || !v.Number?) ==> Meaning(vm, n, env).out == Fault
  {
  }

  // A built-in gets the values of the arguments in the order they are written.
  lemma CallLaw(vm: Vm, n: Node, env: Env, vs: seq<Value>)
    requires n.Call? && |vs| == |n.args| && forall i | 0 <= i < |vs| :: Means(vm, n.args[i], env, vs[i])
    ensures var v := vm.builtin(n.name, vs);
            if v.Some? then Means(vm, n, env, v.value) else Meaning(vm, n, env).out == Fault
  {
    ArgumentsInOrder(vm, n, 0, env, vs);
    assert vs[0..] == vs;
  }

  lemma {:induction false} ArgumentsInOrder(vm: Vm, n: Node, i: nat, env: Env, vs: seq<Value>)
    requires n.Call? && |vs| == |n.args| && i <= |vs| && forall k | 0 <= k < |vs| :: Means(vm, n.args[k], env, vs[k])
    ensures Meanings(vm, n, i, env).values == Some(vs[i..])
    decreases |vs| - i
  {
    if i < |vs| {
      ArgumentsInOrder(vm, n, i + 1, env, vs);
      assert Means(vm, n.args[i], env, vs[i]);
      assert Meanings(vm, n, i, env).values == Some([vs[i]] + vs[i + 1..]);
      assert [vs[i]] + vs[i + 1..] == vs[i..];
    }
  }

  // ---- fuel ----------------------------------------------------------------------------

  // What is finished within some fuel is the same with more.
  lemma {:induction false} ProgramMonotone(vm: Vm, f: nat, g: nat, ss: seq<Node>, last: Value, env: Env)
    requires f <= g && BigProgram(vm, f, ss, last, env).Some?
    ensures BigProgram(vm, g, ss, last, env) == BigProgram(vm, f, ss, last, env)
    decreases f, |ss| + 2
  {
    if ss != [] {
      if ss[0].ExprStmt? {
        var v := Meaning(vm, ss[0].value, env);
        if v.out.Got? {
          ProgramMonotone(vm, f, g, ss[1..], v.out.value, env);
        }
      } else {
        StatementMonotone(vm, f, g, ss[0], env);
        var s := BigStatement(vm, f, ss[0], env).value;
        if s.out.Done? {
          ProgramMonotone(vm, f, g, ss[1..], last, s.env);
        }
      }
    }
  }

  lemma {:induction false} StatementMonotone(vm: Vm, f: nat, g: nat, n: Node, env: Env)
    requires f <= g && BigStatement(vm, f, n, env).Some?
    ensures BigStatement(vm, g, n, env) == BigStatement(vm, f, n, env)
    decreases f, 1
  {
    if n.If? {
      IfMonotone(vm, f - 1, g - 1, n.children, 0, env);
    } else if n.While? {
      WhileMonotone(vm, f - 1, g - 1, n.children, env);
    } else if n.Program? {
      BlockMonotone(vm, f - 1, g - 1, n.stmts, env);
    } else if n.Exec? || n.Mast? {
      var v := Meaning(vm, n.value, env);
      if v.out.Got? {
        ScriptMonotone(vm, f - 1, g - 1, v.out.value, env);
      }
    }
  }

  lemma {:induction false} ScriptMonotone(vm: Vm, f: nat, g: nat, v: Value, env: Env)
    requires f <= g && BigScript(vm, f, v, env).Some?
    ensures BigScript(vm, g, v, env) == BigScript(vm, f, v, env)
    decreases f + 1, 0
  {
    if v.Script? && vm.compile(v.text).Some? {
      ProgramMonotone(vm, f, g, vm.compile(v.text).value, Boolean(false), env);
    }
  }

  lemma {:induction false} BlockMonotone(vm: Vm, f: nat, g: nat, ss: seq<Node>, env: Env)
    requires f <= g && BigBlock(vm, f, ss, env).Some?
    ensures BigBlock(vm, g, ss, env) == BigBlock(vm, f, ss, env)
    decreases f, |ss| + 1
  {
    if ss != [] {
      StatementMonotone(vm, f, g, ss[0], env);
      var s := BigStatement(vm, f, ss[0], env).value;
      if s.out.Done? {
        BlockMonotone(vm, f, g, ss[1..], s.env);
      }
    }
  }

  lemma {:induction false} IfMonotone(vm: Vm, f: nat, g: nat, cs: seq<Node>, k: nat, env: Env)
    requires f <= g && k <= ArmCount(cs) && BigIf(vm, f, cs, k, env).Some?
    ensures BigIf(vm, g, cs, k, env) == BigIf(vm, f, cs, k, env)
    decreases f, ArmCount(cs) - k + 2
  {
    if k == ArmCount(cs) {
      if ElseBlock(cs).Some? {
        StatementMonotone(vm, f, g, ElseBlock(cs).value, env);
      }
    } else if Condition(cs, k).Some? {
      var c := Meaning(vm, Condition(cs, k).value, env);
      if c.out.Got? {
        if !vm.IsTrue(c.out.value) {
          IfMonotone(vm, f, g, cs, k + 1, env);
        } else if Block(cs, k).Some? {
          StatementMonotone(vm, f, g, Block(cs, k).value, env);
        }
      }
    }
  }

  lemma {:induction false} WhileMonotone(vm: Vm, f: nat, g: nat, cs: seq<Node>, env: Env)
    requires f <= g && BigWhile(vm, f, cs, env).Some?
    ensures BigWhile(vm, g, cs, env) == BigWhile(vm, f, cs, env)
    decreases f, |cs| + 2
  {
    if cs != [] {
      var c := Meaning(vm, cs[0], env);
      if c.out.Got? && vm.IsTrue(c.out.value) {
        BlockMonotone(vm, f, g, cs[1..], env);
        var body := BigBlock(vm, f, cs[1..], env).value;
        if body.out.Done? {
          WhileMonotone(vm, f - 1, g - 1, cs, body.env);
        }
      }
    }
  }

  // ---- statements ----------------------------------------------------------------------

  // A script ends with this outcome and these variables.
  ghost predicate Ends(vm: Vm, ss: seq<Node>, env: Env, out: Outcome, after: Env) {
    exists cost: nat :: Computes(vm, ss, env, Big(out, after, cost))
  }

  ghost predicate EndsIn(vm: Vm, fuel: nat, ss: seq<Node>, env: Env, out: Outcome, after: Env) {
    var b := BigProgram(vm, fuel, ss, Boolean(false), env);
    b.Some? && b.value.out == out && b.value.env == after
  }

  lemma FuelFor(vm: Vm, ss: seq<Node>, env: Env, out: Outcome, after: Env) returns (fuel: nat)
    requires Ends(vm, ss, env, out, after)
    ensures EndsIn(vm, fuel, ss, env, out, after)
  {
    var cost: nat :| Computes(vm, ss, env, Big(out, after, cost));
    fuel :| BigProgram(vm, fuel, ss, Boolean(false), env) == Some(Big(out, after, cost));
  }

  lemma FuelSuffices(vm: Vm, fuel: nat, ss: seq<Node>, env: Env, out: Outcome, after: Env)
    requires EndsIn(vm, fuel, ss, env, out, after)
    ensures Ends(vm, ss, env, out, after)
  {
    assert Computes(vm, ss, env, BigProgram(vm, fuel, ss, Boolean(false), env).value);
  }

  lemma MoreFuel(vm: Vm, f: nat, g: nat, ss: seq<Node>, env: Env, out: Outcome, after: Env)
    requires f <= g && EndsIn(vm, f, ss, env, out, after)
    ensures EndsIn(vm, g, ss, env, out, after)
  {
    ProgramMonotone(vm, f, g, ss, Boolean(false), env);
  }

  // The first statement ends the script, or the rest goes on from what it leaves.
  lemma FirstStatement(vm: Vm, fuel: nat, s: Node, rest: seq<Node>, env: Env, out: Outcome, after: Env)
    requires !s.ExprStmt?
    ensures EndsIn(vm, fuel, [s] + rest, env, out, after)
       <==> var b := BigStatement(vm, fuel, s, env);
            b.Some? && if b.value.out.Done? then EndsIn(vm, fuel, rest, b.value.env, out, after)
                       else after == b.value.env && out == (if b.value.out.Returned? then Got(b.value.out.value) else b.value.out)
  {
    assert ([s] + rest)[0] == s && ([s] + rest)[1..] == rest;
  }

  // A first statement that finishes within any fuel at all, always with these variables.
  lemma Goes(vm: Vm, s: Node, rest: seq<Node>, env: Env, next: Env, out: Outcome, after: Env)
    requires !s.ExprStmt? && BigStatement(vm, 0, s, env).None?
    requires forall fuel: nat :: fuel > 0 ==> BigStatement(vm, fuel, s, env).Some?
    requires forall fuel: nat :: fuel > 0 ==> BigStatement(vm, fuel, s, env).value.out.Done?
    requires forall fuel: nat :: fuel > 0 ==> BigStatement(vm, fuel, s, env).value.env == next
    ensures Ends(vm, [s] + rest, env, out, after) <==> Ends(vm, rest, next, out, after)
  {
    if Ends(vm, [s] + rest, env, out, after) {
      var fuel := FuelFor(vm, [s] + rest, env, out, after);
      FirstStatement(vm, fuel, s, rest, env, out, after);
      FuelSuffices(vm, fuel, rest, next, out, after);
    }
    if Ends(vm, rest, next, out, after) {
      var fuel := FuelFor(vm, rest, next, out, after);
      MoreFuel(vm, fuel, fuel + 1, rest, next, out, after);
      FirstStatement(vm, fuel + 1, s, rest, env, out, after);
      FuelSuffices(vm, fuel + 1, [s] + rest, env, out, after);
    }
  }

  lemma Stops(vm: Vm, s: Node, rest: seq<Node>, env: Env, last: Outcome, out: Outcome, after: Env)
    requires !s.ExprStmt? && BigStatement(vm, 0, s, env).None? && !last.Done?
    requires forall fuel: nat :: fuel > 0 ==> BigStatement(vm, fuel, s, env).Some?
    requires forall fuel: nat :: fuel > 0 ==> BigStatement(vm, fuel, s, env).value.out == last
    requires forall fuel: nat :: fuel > 0 ==> BigStatement(vm, fuel, s, env).value.env == env
    ensures Ends(vm, [s] + rest, env, out, after)
       <==> after == env && out == (if last.Returned? then Got(last.value) else last)
  {
    FirstStatement(vm, 1, s, rest, env, out, after);
    if Ends(vm, [s] + rest, env, out, after) {
      var fuel := FuelFor(vm, [s] + rest, env, out, after);
      FirstStatement(vm, fuel, s, rest, env, out, after);
    } else if EndsIn(vm, 1, [s] + rest, env, out, after) {
      FuelSuffices(vm, 1, [s] + rest, env, out, after);
    }
  }

  // After a LET the rest of the script runs with the variable holding the value, the others unchanged.
  lemma LetLaw(vm: Vm, x: string, e: Node, rest: seq<Node>, env: Env, v: Value, out: Outcome, after: Env)
    requires Means(vm, e, env, v)
    ensures Ends(vm, [Let(x, e)] + rest, env, out, after) <==> Ends(vm, rest, env[x := v], out, after)
  {
    Goes(vm, Let(x, e), rest, env, env[x := v], out, after);
  }

  // So a variable read after its LET has the value assigned; one never assigned is zero.
  lemma ReadLaw(vm: Vm, tok: Token, x: string, env: Env, v: Value)
    ensures Means(vm, Var(tok, x), env[x := v], v)
    ensures x !in env ==> Means(vm, Var(tok, x), env, Number(vm.zero))
  {
  }

  // A RETURN's value is the script's, whatever follows it.
  lemma ReturnLaw(vm: Vm, e: Node, rest: seq<Node>, env: Env, v: Value, out: Outcome, after: Env)
    requires Means(vm, e, env, v)
    ensures Ends(vm, [Return(e)] + rest, env, out, after) <==> out == Got(v) && after == env
  {
    Stops(vm, Return(e), rest, env, Returned(v), out, after);
  }

  // An ASSERT ends the script with a fault exactly on a false value, and otherwise changes nothing.
  lemma AssertLaw(vm: Vm, e: Node, rest: seq<Node>, env: Env, v: Value, out: Outcome, after: Env)
    requires Means(vm, e, env, v)
    ensures Ends(vm, [Assert(e)] + rest, env, out, after)
       <==> if Truth(vm, v) then Ends(vm, rest, env, out, after) else out == Fault && after == env
  {
    if Truth(vm, v) {
      Goes(vm, Assert(e), rest, env, env, out, after);
    } else {
      Stops(vm, Assert(e), rest, env, Fault, out, after);
    }
  }

  // A script's value is that of its last bare expression; without any it is FALSE.
  lemma ValueLaw(vm: Vm, e: Node, env: Env, v: Value, out: Outcome, after: Env)
    requires Means(vm, e, env, v)
    ensures Ends(vm, [ExprStmt(e)], env, out, after) <==> out == Got(v) && after == env
    ensures Ends(vm, [], env, out, after) <==> out == Got(Boolean(false)) && after == env
  {
    OneExpression(vm, e, env, v);
    if Ends(vm, [ExprStmt(e)], env, out, after) {
      var fuel := FuelFor(vm, [ExprStmt(e)], env, out, after);
      ProgramMonotone(vm, 0, fuel, [ExprStmt(e)], Boolean(false), env);
    }
    if Ends(vm, [], env, out, after) {
      var fuel := FuelFor(vm, [], env, out, after);
      assert EndsIn(vm, fuel, [], env, Got(Boolean(false)), env);
    }
    FuelSuffices(vm, 0, [ExprStmt(e)], env, Got(v), env);
    FuelSuffices(vm, 0, [], env, Got(Boolean(false)), env);
  }

  lemma OneExpression(vm: Vm, e: Node, env: Env, v: Value)
    requires Means(vm, e, env, v)
    ensures EndsIn(vm, 0, [ExprStmt(e)], env, Got(v), env) && EndsIn(vm, 0, [], env, Got(Boolean(false)), env)
  {
    assert [ExprStmt(e)][1..] == [];
    assert BigProgram(vm, 0, [], v, env) == Some(Big(Got(v), env, 0));
  }

  // A WHILE whose condition is true runs its body as a block and then is there again; with the condition
  // false the script goes on after it.
  lemma WhileLaw(vm: Vm, c: Node, body: seq<Node>, rest: seq<Node>, env: Env, v: Value, out: Outcome, after: Env)
    requires Means(vm, c, env, v)
    ensures Ends(vm, [While([c] + body)] + rest, env, out, after)
       <==> if Truth(vm, v) then Ends(vm, [Program(body)] + ([While([c] + body)] + rest), env, out, after)
            else Ends(vm, rest, env, out, after)
  {
    if Truth(vm, v) {
      if Ends(vm, [While([c] + body)] + rest, env, out, after) {
        LoopUnfolds(vm, c, body, rest, env, v, out, after);
      }
      if Ends(vm, [Program(body)] + ([While([c] + body)] + rest), env, out, after) {
        LoopFolds(vm, c, body, rest, env, v, out, after);
      }
    } else {
      Goes(vm, While([c] + body), rest, env, env, out, after);
    }
  }

  lemma LoopUnfolds(vm: Vm, c: Node, body: seq<Node>, rest: seq<Node>, env: Env, v: Value, out: Outcome, after: Env)
    requires Means(vm, c, env, v) && Truth(vm, v) && Ends(vm, [While([c] + body)] + rest, env, out, after)
    ensures Ends(vm, [Program(body)] + ([While([c] + body)] + rest), env, out, after)
  {
    var fuel := FuelFor(vm, [While([c] + body)] + rest, env, out, after);
    TurnIsBlock(vm, fuel, c, body, rest, env, v, out, after);
    FuelSuffices(vm, fuel, [Program(body)] + ([While([c] + body)] + rest), env, out, after);
  }

  lemma LoopFolds(vm: Vm, c: Node, body: seq<Node>, rest: seq<Node>, env: Env, v: Value, out: Outcome, after: Env)
    requires Means(vm, c, env, v) && Truth(vm, v) && Ends(vm, [Program(body)] + ([While([c] + body)] + rest), env, out, after)
    ensures Ends(vm, [While([c] + body)] + rest, env, out, after)
  {
    var fuel := FuelFor(vm, [Program(body)] + ([While([c] + body)] + rest), env, out, after);
    BlockIsTurn(vm, fuel, c, body, rest, env, v, out, after);
    FuelSuffices(vm, fuel + 1, [While([c] + body)] + rest, env, out, after);
  }

  // One turn: the body as a block, then the loop with a unit of fuel less.
  lemma OneTurn(vm: Vm, fuel: nat, c: Node, body: seq<Node>, env: Env, v: Value)
    requires Means(vm, c, env, v) && Truth(vm, v) && fuel > 0
    ensures var (loop, turn) := (BigStatement(vm, fuel, While([c] + body), env), BigBlock(vm, fuel - 1, body, env));
            && (turn.None? ==> loop.None?)
            && (turn.Some? && !turn.value.out.Done? ==> loop.Some? && loop.value.out == turn.value.out && loop.value.env == turn.value.env)
            && (turn.Some? && turn.value.out.Done? ==>
                  if fuel == 1 then loop.None?
                  else var next := BigStatement(vm, fuel - 1, While([c] + body), turn.value.env);
                       if next.None? then loop.None?
                       else loop.Some? && loop.value.out == next.value.out && loop.value.env == next.value.env)
  {
    assert ([c] + body)[0] == c && ([c] + body)[1..] == body;
  }

  lemma TurnIsBlock(vm: Vm, fuel: nat, c: Node, body: seq<Node>, rest: seq<Node>, env: Env, v: Value, out: Outcome, after: Env)
    requires Means(vm, c, env, v) && Truth(vm, v) && EndsIn(vm, fuel, [While([c] + body)] + rest, env, out, after)
    ensures EndsIn(vm, fuel, [Program(body)] + ([While([c] + body)] + rest), env, out, after)
  {
    var loop := While([c] + body);
    FirstStatement(vm, fuel, loop, rest, env, out, after);
    OneTurn(vm, fuel, c, body, env, v);
    FirstStatement(vm, fuel, Program(body), [loop] + rest, env, out, after);
    var turn := BigBlock(vm, fuel - 1, body, env).value;
    if turn.out.Done? {
      FirstStatement(vm, fuel, loop, rest, turn.env, out, after);
      StatementMonotone(vm, fuel - 1, fuel, loop, turn.env);
    }
  }

  lemma BlockIsTurn(vm: Vm, fuel: nat, c: Node, body: seq<Node>, rest: seq<Node>, env: Env, v: Value, out: Outcome, after: Env)
    requires Means(vm, c, env, v) && Truth(vm, v) && EndsIn(vm, fuel, [Program(body)] + ([While([c] + body)] + rest), env, out, after)
    ensures EndsIn(vm, fuel + 1, [While([c] + body)] + rest, env, out, after)
  {
    var loop := While([c] + body);
    FirstStatement(vm, fuel, Program(body), [loop] + rest, env, out, after);
    OneTurn(vm, fuel + 1, c, body, env, v);
    FirstStatement(vm, fuel + 1, loop, rest, env, out, after);
    BlockMonotone(vm, fuel - 1, fuel, body, env);
    var turn := BigBlock(vm, fuel - 1, body, env).value;
    if turn.out.Done? {
      FirstStatement(vm, fuel, loop, rest, turn.env, out, after);
      var s := BigStatement(vm, fuel, loop, turn.env).value;
      if s.out.Done? {
        MoreFuel(vm, fuel, fuel + 1, rest, s.env, out, after);
      }
    }
  }

  // EXEC and MAST run the compiled string in the variables of the script, and go on with what it leaves
  // there; its value, returned or not, is dropped.
  lemma ExecLaw(vm: Vm, s: Node, e: Node, p: seq<Node>, rest: seq<Node>, env: Env, text: string, value: Value, inner: Env,
                out: Outcome, after: Env)
    requires s == Exec(e) || s == Mast(e)
    requires Means(vm, e, env, Script(text)) && vm.compile(text) == Some(p) && Ends(vm, p, env, Got(value), inner)
    ensures Ends(vm, [s] + rest, env, out, after) <==> Ends(vm, rest, inner, out, after)
  {
    var k := FuelFor(vm, p, env, Got(value), inner);
    if Ends(vm, [s] + rest, env, out, after) {
      StringGoes(vm, k, s, e, p, rest, env, text, value, inner, out, after);
    }
    if Ends(vm, rest, inner, out, after) {
      StringCame(vm, k, s, e, p, rest, env, text, value, inner, out, after);
    }
  }

  lemma StringGoes(vm: Vm, k: nat, s: Node, e: Node, p: seq<Node>, rest: seq<Node>, env: Env, text: string, value: Value,
                   inner: Env, out: Outcome, after: Env)
    requires (s == Exec(e) || s == Mast(e)) && Ends(vm, [s] + rest, env, out, after)
    requires Means(vm, e, env, Script(text)) && vm.compile(text) == Some(p) && EndsIn(vm, k, p, env, Got(value), inner)
    ensures Ends(vm, rest, inner, out, after)
  {
    var fuel := FuelFor(vm, [s] + rest, env, out, after);
    MoreFuel(vm, fuel, fuel + k + 1, [s] + rest, env, out, after);
    StringRuns(vm, fuel + k + 1, k, s, e, p, env, text, value, inner);
    FirstStatement(vm, fuel + k + 1, s, rest, env, out, after);
    FuelSuffices(vm, fuel + k + 1, rest, inner, out, after);
  }

  lemma StringCame(vm: Vm, k: nat, s: Node, e: Node, p: seq<Node>, rest: seq<Node>, env: Env, text: string, value: Value,
                   inner: Env, out: Outcome, after: Env)
    requires (s == Exec(e) || s == Mast(e)) && Ends(vm, rest, inner, out, after)
    requires Means(vm, e, env, Script(text)) && vm.compile(text) == Some(p) && EndsIn(vm, k, p, env, Got(value), inner)
    ensures Ends(vm, [s] + rest, env, out, after)
  {
    var fuel := FuelFor(vm, rest, inner, out, after);
    MoreFuel(vm, fuel, fuel + k + 1, rest, inner, out, after);
    StringRuns(vm, fuel + k + 1, k, s, e, p, env, text, value, inner);
    FirstStatement(vm, fuel + k + 1, s, rest, env, out, after);
    FuelSuffices(vm, fuel + k + 1, [s] + rest, env, out, after);
  }

  lemma StringRuns(vm: Vm, fuel: nat, k: nat, s: Node, e: Node, p: seq<Node>, env: Env, text: string, value: Value, inner: Env)
    requires (s == Exec(e) || s == Mast(e)) && fuel > k
    requires Means(vm, e, env, Script(text)) && vm.compile(text) == Some(p) && EndsIn(vm, k, p, env, Got(value), inner)
    ensures var b := BigStatement(vm, fuel, s, env); b.Some? && b.value.out == Done && b.value.env == inner
  {
    ProgramMonotone(vm, k, fuel - 1, p, Boolean(false), env);
  }

  // A statement whose expression faults ends the script with a fault, and so does EXEC or MAST of anything
  // but a string that compiles.
  lemma FaultEnds(vm: Vm, s: Node, e: Node, rest: seq<Node>, env: Env, out: Outcome, after: Env)
    requires s == Return(e) || s == Assert(e) || s == Exec(e) || s == Mast(e) || (s.Let? && s.value == e)
    requires var v := Meaning(vm, e, env).out;
             v == Fault || ((s.Exec? || s.Mast?) && (v.value.Script? ==> vm.compile(v.value.text).None?))
    ensures Ends(vm, [s] + rest, env, out, after) <==> out == Fault && after == env
  {
    Stops(vm, s, rest, env, Fault, out, after);
  }

  // A block runs its statements one after the other; the values of its bare expressions are dropped.
  lemma BlockLaw(vm: Vm, s: Node, more: seq<Node>, rest: seq<Node>, env: Env, out: Outcome, after: Env)
    ensures Ends(vm, [Program([])] + rest, env, out, after) <==> Ends(vm, rest, env, out, after)
    ensures !s.ExprStmt? ==>
              (Ends(vm, [Program([s] + more)] + rest, env, out, after) <==> Ends(vm, [s] + ([Program(more)] + rest), env, out, after))
    ensures s.ExprStmt? && Meaning(vm, s.value, env).out.Got? ==>
              (Ends(vm, [Program([s] + more)] + rest, env, out, after) <==> Ends(vm, [Program(more)] + rest, env, out, after))
  {
    Goes(vm, Program([]), rest, env, env, out, after);
    var (whole, split) := ([Program([s] + more)] + rest, if s.ExprStmt? then [Program(more)] + rest else [s] + ([Program(more)] + rest));
    if s.ExprStmt? ==> Meaning(vm, s.value, env).out.Got? {
      if Ends(vm, whole, env, out, after) {
        var fuel := FuelFor(vm, whole, env, out, after);
        BlockOpens(vm, fuel, s, more, rest, env, out, after);
        FuelSuffices(vm, fuel, split, env, out, after);
      }
      if Ends(vm, split, env, out, after) {
        var fuel := FuelFor(vm, split, env, out, after);
        BlockCloses(vm, fuel, s, more, rest, env, out, after);
        FuelSuffices(vm, fuel + 2, whole, env, out, after);
      }
    }
  }

  // A block is its first statement, then the block of the others.
  lemma BlockStep(vm: Vm, fuel: nat, s: Node, more: seq<Node>, env: Env)
    requires fuel > 0
    ensures var (b, first) := (BigStatement(vm, fuel, Program([s] + more), env), BigStatement(vm, fuel - 1, s, env));
            && (first.None? ==> b.None?)
            && (first.Some? && !first.value.out.Done? ==> b.Some? && b.value.out == first.value.out && b.value.env == first.value.env)
            && (first.Some? && first.value.out.Done? ==>
                  var next := BigStatement(vm, fuel, Program(more), first.value.env);
                  if next.None? then b.None? else b.Some? && b.value.out == next.value.out && b.value.env == next.value.env)
  {
    assert ([s] + more)[0] == s && ([s] + more)[1..] == more;
  }

  lemma BareStep(vm: Vm, fuel: nat, s: Node, env: Env)
    requires s.ExprStmt? && Meaning(vm, s.value, env).out.Got? && fuel > 0
    ensures var b := BigStatement(vm, fuel, s, env); b.Some? && b.value.out == Done && b.value.env == env
  {
  }

  lemma BlockOpens(vm: Vm, fuel: nat, s: Node, more: seq<Node>, rest: seq<Node>, env: Env, out: Outcome, after: Env)
    requires EndsIn(vm, fuel, [Program([s] + more)] + rest, env, out, after)
    requires s.ExprStmt? ==> Meaning(vm, s.value, env).out.Got?
    ensures EndsIn(vm, fuel, if s.ExprStmt? then [Program(more)] + rest else [s] + ([Program(more)] + rest), env, out, after)
  {
    FirstStatement(vm, fuel, Program([s] + more), rest, env, out, after);
    BlockStep(vm, fuel, s, more, env);
    var b := BigStatement(vm, fuel - 1, s, env).value;
    if s.ExprStmt? {
      BareStep(vm, fuel - 1, s, env);
    } else {
      StatementMonotone(vm, fuel - 1, fuel, s, env);
      FirstStatement(vm, fuel, s, [Program(more)] + rest, env, out, after);
    }
    FirstStatement(vm, fuel, Program(more), rest, b.env, out, after);
  }

  lemma BlockCloses(vm: Vm, fuel: nat, s: Node, more: seq<Node>, rest: seq<Node>, env: Env, out: Outcome, after: Env)
    requires EndsIn(vm, fuel, if s.ExprStmt? then [Program(more)] + rest else [s] + ([Program(more)] + rest), env, out, after)
    requires s.ExprStmt? ==> Meaning(vm, s.value, env).out.Got?
    ensures EndsIn(vm, fuel + 2, [Program([s] + more)] + rest, env, out, after)
  {
    FirstStatement(vm, fuel + 2, Program([s] + more), rest, env, out, after);
    BlockStep(vm, fuel + 2, s, more, env);
    if s.ExprStmt? {
      BareStep(vm, fuel + 1, s, env);
      BlockRest(vm, fuel, more, rest, env, out, after);
    } else {
      FirstStatement(vm, fuel, s, [Program(more)] + rest, env, out, after);
      StatementMonotone(vm, fuel, fuel + 1, s, env);
      var b := BigStatement(vm, fuel, s, env).value;
      if b.out.Done? {
        BlockRest(vm, fuel, more, rest, b.env, out, after);
      }
    }
  }

  lemma BlockRest(vm: Vm, fuel: nat, more: seq<Node>, rest: seq<Node>, env: Env, out: Outcome, after: Env)
    requires EndsIn(vm, fuel, [Program(more)] + rest, env, out, after)
    ensures var b := BigStatement(vm, fuel + 2, Program(more), env);
            b.Some? && if b.value.out.Done? then EndsIn(vm, fuel + 2, rest, b.value.env, out, after)
                       else after == b.value.env && out == (if b.value.out.Returned? then Got(b.value.out.value) else b.value.out)
  {
    MoreFuel(vm, fuel, fuel + 2, [Program(more)] + rest, env, out, after);
    FirstStatement(vm, fuel + 2, Program(more), rest, env, out, after);
  }

  // TRUE AND FALSE is FALSE after four ticks: the statement's, the operator's and the two literals'.
  lemma TrueAndFalse(vm: Vm, t: Token, f: Token, env: Env)
    ensures ExecProgram(vm, LIMITS, [ExprStmt(Binary(Token(AND, "AND"), BoolLit(t, true), BoolLit(f, false)))], Boolean(false), env, 0)
         == Run(Got(Boolean(false)), env, 4)
  {
    var n := Binary(Token(AND, "AND"), BoolLit(t, true), BoolLit(f, false));
    assert [ExprStmt(n)][1..] == [];
    EvalIsMeaning(vm, MAX_INSTRUCTIONS, n, env, 1);
    assert ExecProgram(vm, LIMITS, [], Boolean(false), env, 4) == Run(Got(Boolean(false)), env, 4);
  }
}

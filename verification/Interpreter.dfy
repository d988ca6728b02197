/**
 * The KISS VM interpreter: it mutates its variables and one instruction counter, shared by every
 * nested script. A C++ exception is an outcome each caller hands on; every method ends because
 * the counter grows.
 */
module Interpreting {
  import opened Ast
  import opened Bytes
  import opened KissVm

  class Interpreter {
    const vm: Vm
    var env: Env
    var instrCount: nat

    constructor (vm: Vm, env: Env)
      ensures this.vm == vm && this.env == env && instrCount == 0
    {
      this.vm := vm;
      this.env := env;
      instrCount := 0;
    }

    // The state a run leaves behind, with how it ended.
    ghost function After(out: Outcome): Run
      reads this
    {
      Run(out, env, instrCount)
    }

    method Tick() returns (ok: bool)
      requires instrCount <= MAX_INSTRUCTIONS
      modifies this`instrCount
      ensures instrCount == old(instrCount) + 1 && ok == (instrCount <= MAX_INSTRUCTIONS)
    {
      instrCount := instrCount + 1;
      ok := instrCount <= MAX_INSTRUCTIONS;
    }

    method Execute(program: seq<Node>) returns (out: Outcome)
      requires instrCount <= MAX_INSTRUCTIONS
      modifies this
      ensures After(out) == ExecProgram(vm, LIMITS, program, Boolean(false), old(env), old(instrCount))
      decreases MAX_INSTRUCTIONS - instrCount, 2
    {
      var last := Boolean(false);
      var i := 0;
      while i < |program|
        invariant i <= |program| && old(instrCount) <= instrCount <= MAX_INSTRUCTIONS
        invariant ExecProgram(vm, LIMITS, program[i..], last, env, instrCount)
               == ExecProgram(vm, LIMITS, program, Boolean(false), old(env), old(instrCount))
      {
        assert program[i..][1..] == program[i + 1..];
        var ok := Tick();
        if !ok { return OutOfTicks; }
        if program[i].ExprStmt? {
          out := EvalNode(program[i].value);
          if !out.Got? { return; }
          last := out.value;
        } else {
          out := ExecStatement(program[i]);
          if out.Returned? { return Got(out.value); }
          if !out.Done? { return; }
        }
        i := i + 1;
      }
      return Got(last);
    }

    // ---- statements ----

    method ExecStatement(n: Node) returns (out: Outcome)
      requires instrCount <= MAX_INSTRUCTIONS
      modifies this
      ensures After(out) == KissVm.ExecStatement(vm, LIMITS, n, old(env), old(instrCount))
      decreases MAX_INSTRUCTIONS - instrCount, 0
    {
      var ok := Tick();
      if !ok { return OutOfTicks; }
      if n.Let? {
        out := EvalNode(n.value);
        if !out.Got? { return; }
        env := env[n.name := out.value];
        return Done;
      } else if n.If? {
        out := ExecIf(n.children);
      } else if n.While? {
        out := ExecWhile(n.children);
      } else if n.Return? {
        out := EvalNode(n.value);
        if out.Got? { return Returned(out.value); }
      } else if n.Assert? {
        out := EvalNode(n.value);
        if out.Got? { return if vm.IsTrue(out.value) then Done else Fault; }
      } else if n.Exec? || n.Mast? {
        out := EvalNode(n.value);
        if out.Got? { out := ExecExec(out.value); }
      } else if n.ExprStmt? {
        out := EvalNode(n.value);
        if out.Got? { return Done; }
      } else if n.Program? {
        out := ExecBlock(n.stmts);
      } else {
        return Fault;
      }
    }

    method ExecBlock(stmts: seq<Node>) returns (out: Outcome)
      requires instrCount <= MAX_INSTRUCTIONS
      modifies this
      ensures After(out) == KissVm.ExecBlock(vm, LIMITS, stmts, old(env), old(instrCount))
      decreases MAX_INSTRUCTIONS - instrCount, 1
    {
      var i := 0;
      while i < |stmts|
        invariant i <= |stmts| && old(instrCount) <= instrCount <= MAX_INSTRUCTIONS
        invariant KissVm.ExecBlock(vm, LIMITS, stmts[i..], env, instrCount)
               == KissVm.ExecBlock(vm, LIMITS, stmts, old(env), old(instrCount))
      {
        assert stmts[i..][1..] == stmts[i + 1..];
        out := ExecStatement(stmts[i]);
        if !out.Done? { return; }
        i := i + 1;
      }
      return Done;
    }

    method ExecIf(children: seq<Node>) returns (out: Outcome)
      requires instrCount <= MAX_INSTRUCTIONS
      modifies this
      ensures After(out) == KissVm.ExecIf(vm, LIMITS, children, 0, old(env), old(instrCount))
      decreases MAX_INSTRUCTIONS - instrCount, 1
    {
      var idx := 0;
      while idx == 0 || idx + 1 < |children|
        invariant old(instrCount) <= instrCount <= MAX_INSTRUCTIONS && env == old(env)
        invariant KissVm.ExecIf(vm, LIMITS, children, idx, env, instrCount)
               == KissVm.ExecIf(vm, LIMITS, children, 0, old(env), old(instrCount))
        decreases |children| + 2 - idx
      {
        if idx >= |children| { return Fault; }
        out := EvalNode(children[idx]);
        if !out.Got? { return; }
        if vm.IsTrue(out.value) {
          if idx + 1 >= |children| { return Fault; }
          out := ExecStatement(children[idx + 1]);
          return;
        }
        idx := idx + 2;
      }
      if idx < |children| {
        out := ExecStatement(children[idx]);
      } else {
        out := Done;
      }
    }

    method ExecWhile(children: seq<Node>) returns (out: Outcome)
      requires instrCount <= MAX_INSTRUCTIONS
      modifies this
      ensures After(out) == KissVm.ExecWhile(vm, LIMITS, children, 0, old(env), old(instrCount))
      decreases MAX_INSTRUCTIONS - instrCount, 1
    {
      var loopCount: nat := 0;
      while true
        invariant old(instrCount) <= instrCount <= MAX_INSTRUCTIONS
        invariant KissVm.ExecWhile(vm, LIMITS, children, loopCount, env, instrCount)
               == KissVm.ExecWhile(vm, LIMITS, children, 0, old(env), old(instrCount))
        decreases MAX_INSTRUCTIONS - instrCount
      {
        if loopCount + 1 > MAX_LOOP { return OutOfTurns; }
        var ok := Tick();
        if !ok { return OutOfTicks; }
        if children == [] { return Fault; }
        out := EvalNode(children[0]);
        if !out.Got? { return; }
        if !vm.IsTrue(out.value) { return Done; }
        out := ExecBlock(children[1..]);
        if !out.Done? { return; }
        loopCount := loopCount + 1;
      }
    }

    // EXEC once its operand is evaluated: the string runs in the same scope, its value dropped.
    method ExecExec(v: Value) returns (out: Outcome)
      requires instrCount <= MAX_INSTRUCTIONS
      modifies this
      ensures After(out) == ExecScript(vm, LIMITS, v, old(env), old(instrCount))
      decreases MAX_INSTRUCTIONS - instrCount, 3
    {
      if !v.Script? { return Fault; }
      var ast := vm.compile(v.text);
      if ast.None? { return Fault; }
      out := Execute(ast.value);
      if out.Got? { return Done; }
    }

    // ---- expressions ----

    method EvalNode(n: Node) returns (out: Outcome)
      requires instrCount <= MAX_INSTRUCTIONS
      modifies this`instrCount
      ensures Metered(out, instrCount) == Eval(vm, MAX_INSTRUCTIONS, n, env, old(instrCount))
      decreases n, 1
    {
      var ok := Tick();
      if !ok { return OutOfTicks; }
      if n.BoolLit? {
        return Got(Boolean(n.bval));
      } else if n.NumLit? {
        var v := vm.numberLiteral(n.tok.value);
        return if v.Some? then Got(Number(v.value)) else Fault;
      } else if n.HexLit? {
        var v := vm.hexLiteral(n.tok.value);
        return if v.Some? then Got(Hex(v.value)) else Fault;
      } else if n.StrLit? {
        return Got(Script(n.tok.value));
      } else if n.Var? {
        return Got(if n.name in env then env[n.name] else Number(vm.zero));
      } else if n.Binary? {
        out := EvalBinary(n);
      } else if n.Unary? {
        out := EvalNode(n.operand);
        if out.Got? { return ApplyUnary(vm, n.tok.kind, out.value); }
      } else if n.Call? {
        out := EvalCall(n);
      } else if n.ExprStmt? {
        out := EvalNode(n.value);
      } else {
        return Fault;
      }
    }

    // The counter already holds this node's own tick.
    method EvalBinary(n: Node) returns (out: Outcome)
      requires n.Binary? && 1 <= instrCount <= MAX_INSTRUCTIONS
      modifies this`instrCount
      ensures Metered(out, instrCount) == Eval(vm, MAX_INSTRUCTIONS, n, env, old(instrCount) - 1)
      decreases n, 0
    {
      var op := n.tok.kind;
      var left := EvalNode(n.left);
      if !left.Got? { return left; }
      if op == AND || op == NAND {
        if !vm.IsTrue(left.value) { return Got(Boolean(op == NAND)); }
      } else if op == OR || op == NOR {
        if vm.IsTrue(left.value) { return Got(Boolean(op != NOR)); }
      }
      var right := EvalNode(n.right);
      if !right.Got? { return right; }
      return Apply(vm, op, left.value, right.value);
    }

    method EvalCall(n: Node) returns (out: Outcome)
      requires n.Call? && 1 <= instrCount <= MAX_INSTRUCTIONS
      modifies this`instrCount
      ensures Metered(out, instrCount) == Eval(vm, MAX_INSTRUCTIONS, n, env, old(instrCount) - 1)
      decreases n, 0
    {
      var args: seq<Value> := [];
      var i := 0;
      ghost var all := EvalArgs(vm, MAX_INSTRUCTIONS, n, 0, env, instrCount);
      while i < |n.args|
        invariant i <= |n.args| && old(instrCount) <= instrCount <= MAX_INSTRUCTIONS
        invariant var rest := EvalArgs(vm, MAX_INSTRUCTIONS, n, i, env, instrCount);
                  rest.out == all.out && rest.ticks == all.ticks && (all.out.Done? ==> all.values == args + rest.values)
      {
        var v := EvalNode(n.args[i]);
        if !v.Got? { return v; }
        args := args + [v.value];
        i := i + 1;
      }
      assert args + [] == args;
      return Yield(vm.builtin(n.name, args));
    }
  }
}

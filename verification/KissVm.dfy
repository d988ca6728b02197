/**
 * KISS VM semantics, twice. The metered semantics (Eval, Exec*) counts instructions the way the
 * interpreter does and gives up at a limit. The unmetered one (Meaning, Big*) knows neither
 * limit; it walks a structured view of IF and says what a script computes and what it costs.
 */
module KissVm {
  import opened Ast
  import opened Bytes
  import opened MiniNumbers

  const MAX_INSTRUCTIONS: nat := 1024
  const MAX_LOOP: nat := 512

  datatype Value = Boolean(b: bool) | Number(n: MiniNumber) | Hex(bytes: seq<Byte>) | Script(text: string)

  type Env = map<string, Value>

  // What the interpreter calls out to: literals, decimal arithmetic, built-ins, and the
  // tokenizer and parser EXEC runs on a string. None stands for a thrown exception.
  datatype Vm = Vm(
    numberLiteral: string -> Option<MiniNumber>,
    hexLiteral: string -> Option<seq<Byte>>,
    zero: MiniNumber,
    isZero: MiniNumber -> bool,
    relate: (TokenType, MiniNumber, MiniNumber) -> bool,
    compute: (TokenType, MiniNumber, MiniNumber) -> Option<MiniNumber>,
    show: Value -> string,
    builtin: (string, seq<Value>) -> Option<Value>,
    compile: string -> Option<seq<Node>>)
  {
    predicate IsTrue(v: Value) {
      match v
      case Boolean(b) => b
      case Number(n) => !isZero(n)
      case Hex(bytes) => bytes != []
      case Script(text) => text != ""
    }
  }

  // How a phase of a run ends. OutOfTicks and OutOfTurns are the two limits.
  datatype Outcome = Got(value: Value) | Done | Returned(value: Value) | Fault | OutOfTicks | OutOfTurns

  function Yield(v: Option<Value>): Outcome {
    if v.Some? then Got(v.value) else Fault
  }

  // ---- operators -----------------------------------------------------------------------

  predicate StopsAtFalse(op: TokenType) { op == AND || op == NAND }

  predicate StopsAtTrue(op: TokenType) { op == OR || op == NOR }

  predicate Negated(op: TokenType) { op == NAND || op == NOR }

  // Whether the left operand alone decides a short-circuit operator.
  predicate Decides(vm: Vm, op: TokenType, l: Value) {
    (StopsAtFalse(op) && !vm.IsTrue(l)) || (StopsAtTrue(op) && vm.IsTrue(l))
  }

  function Apply(vm: Vm, op: TokenType, l: Value, r: Value): Outcome {
    if op == AND then Got(Boolean(vm.IsTrue(l) && vm.IsTrue(r)))
    else if op == NAND then Got(Boolean(!(vm.IsTrue(l) && vm.IsTrue(r))))
    else if op == OR then Got(Boolean(vm.IsTrue(l) || vm.IsTrue(r)))
    else if op == NOR then Got(Boolean(!(vm.IsTrue(l) || vm.IsTrue(r))))
    else if op == XOR then Got(Boolean(vm.IsTrue(l) != vm.IsTrue(r)))
    else if op == EQ then Got(Boolean(
      if l.Number? && r.Number? then vm.relate(EQ, l.n, r.n)
      else if l.Hex? && r.Hex? then l.bytes == r.bytes
      else if l.Boolean? && r.Boolean? then l.b == r.b
      else if l.Script? && r.Script? then l.text == r.text
      else vm.show(l) == vm.show(r)))
    else if op in {LT, GT, LTE, GTE} then
      if l.Number? && r.Number? then Got(Boolean(vm.relate(op, l.n, r.n))) else Fault
    else if op in {PLUS, MINUS, MULTIPLY, DIVIDE, MODULO} then
      if l.Number? && r.Number? then Calculated(vm, op, l.n, r.n) else Fault
    else Fault
  }

  function Calculated(vm: Vm, op: TokenType, x: MiniNumber, y: MiniNumber): Outcome {
    var n := vm.compute(op, x, y);
    if n.Some? then Got(Number(n.value)) else Fault
  }

  function ApplyUnary(vm: Vm, op: TokenType, v: Value): Outcome {
    if op == NOT then Got(Boolean(!vm.IsTrue(v)))
    else if op == MINUS && v.Number? then Calculated(vm, MINUS, vm.zero, v.n)
    else Fault
  }

  // ---- unmetered expressions -----------------------------------------------------------

  datatype Priced = Priced(out: Outcome, cost: nat)

  datatype PricedArgs = PricedArgs(values: Option<seq<Value>>, cost: nat)

  // The meaning of an expression, and the number of nodes visited to find it.
  function Meaning(vm: Vm, n: Node, env: Env): (r: Priced)
    ensures r.out.Got? || r.out.Fault?
    ensures r.cost >= 1
    decreases n
  {
    if n.BoolLit? then Priced(Got(Boolean(n.bval)), 1)
    else if n.NumLit? then
      var v := vm.numberLiteral(n.tok.value);
      Priced(if v.Some? then Got(Number(v.value)) else Fault, 1)
    else if n.HexLit? then
      var v := vm.hexLiteral(n.tok.value);
      Priced(if v.Some? then Got(Hex(v.value)) else Fault, 1)
    else if n.StrLit? then Priced(Got(Script(n.tok.value)), 1)
    else if n.Var? then Priced(Got(if n.name in env then env[n.name] else Number(vm.zero)), 1)
    else if n.Binary? then
      var l := Meaning(vm, n.left, env);
      if !l.out.Got? then Priced(l.out, 1 + l.cost)
      else if Decides(vm, n.tok.kind, l.out.value) then
        Priced(Got(Boolean(StopsAtTrue(n.tok.kind) != Negated(n.tok.kind))), 1 + l.cost)
      else
        var r := Meaning(vm, n.right, env);
        Priced(if r.out.Got? then Apply(vm, n.tok.kind, l.out.value, r.out.value) else r.out, 1 + l.cost + r.cost)
    else if n.Unary? then
      var v := Meaning(vm, n.operand, env);
      Priced(if v.out.Got? then ApplyUnary(vm, n.tok.kind, v.out.value) else v.out, 1 + v.cost)
    else if n.Call? then
      var args := Meanings(vm, n, 0, env);
      Priced(if args.values.Some? then Yield(vm.builtin(n.name, args.values.value)) else Fault, 1 + args.cost)
    else if n.ExprStmt? then
      var v := Meaning(vm, n.value, env);
      Priced(v.out, 1 + v.cost)
    else Priced(Fault, 1)
  }

  // The meanings of the arguments of n from the i-th on, left to right.
  function Meanings(vm: Vm, n: Node, i: nat, env: Env): (r: PricedArgs)
    requires n.Call? && i <= |n.args|
    decreases n, |n.args| - i
  {
    if i == |n.args| then PricedArgs(Some([]), 0)
    else
      var v := Meaning(vm, n.args[i], env);
      if !v.out.Got? then PricedArgs(None, v.cost)
      else
        var rest := Meanings(vm, n, i + 1, env);
        PricedArgs(if rest.values.Some? then Some([v.out.value] + rest.values.value) else None, v.cost + rest.cost)
  }

  // ---- metered expressions -------------------------------------------------------------

  // `ticks` is the instruction counter; a tick beyond the limit leaves it at limit + 1.
  datatype Metered = Metered(out: Outcome, ticks: nat)

  datatype MeteredArgs = MeteredArgs(out: Outcome, values: seq<Value>, ticks: nat)

  function Eval(vm: Vm, limit: nat, n: Node, env: Env, t: nat): (r: Metered)
    requires t <= limit
    ensures t < r.ticks <= limit + 1
    ensures r.out.OutOfTicks? <==> r.ticks == limit + 1
    ensures r.out.Got? || r.out.Fault? || r.out.OutOfTicks?
    decreases n
  {
    if t == limit then Metered(OutOfTicks, limit + 1)
    else if n.BoolLit? then Metered(Got(Boolean(n.bval)), t + 1)
    else if n.NumLit? then
      var v := vm.numberLiteral(n.tok.value);
      Metered(if v.Some? then Got(Number(v.value)) else Fault, t + 1)
    else if n.HexLit? then
      var v := vm.hexLiteral(n.tok.value);
      Metered(if v.Some? then Got(Hex(v.value)) else Fault, t + 1)
    else if n.StrLit? then Metered(Got(Script(n.tok.value)), t + 1)
    else if n.Var? then Metered(Got(if n.name in env then env[n.name] else Number(vm.zero)), t + 1)
    else if n.Binary? then
      var l := Eval(vm, limit, n.left, env, t + 1);
      if !l.out.Got? then l
      else if Decides(vm, n.tok.kind, l.out.value) then
        Metered(Got(Boolean(StopsAtTrue(n.tok.kind) != Negated(n.tok.kind))), l.ticks)
      else
        var r := Eval(vm, limit, n.right, env, l.ticks);
        if !r.out.Got? then r else Metered(Apply(vm, n.tok.kind, l.out.value, r.out.value), r.ticks)
    else if n.Unary? then
      var v := Eval(vm, limit, n.operand, env, t + 1);
      if !v.out.Got? then v else Metered(ApplyUnary(vm, n.tok.kind, v.out.value), v.ticks)
    else if n.Call? then
      var args := EvalArgs(vm, limit, n, 0, env, t + 1);
      Metered(if args.out.Done? then Yield(vm.builtin(n.name, args.values)) else args.out, args.ticks)
    else if n.ExprStmt? then Eval(vm, limit, n.value, env, t + 1)
    else Metered(Fault, t + 1)
  }

  function EvalArgs(vm: Vm, limit: nat, n: Node, i: nat, env: Env, t: nat): (r: MeteredArgs)
    requires n.Call? && i <= |n.args| && t <= limit
    ensures t <= r.ticks <= limit + 1
    ensures r.out.OutOfTicks? <==> r.ticks == limit + 1
    ensures r.out.Done? || r.out.Fault? || r.out.OutOfTicks?
    decreases n, |n.args| - i
  {
    if i == |n.args| then MeteredArgs(Done, [], t)
    else
      var v := Eval(vm, limit, n.args[i], env, t);
      if !v.out.Got? then MeteredArgs(v.out, [], v.ticks)
      else
        var rest := EvalArgs(vm, limit, n, i + 1, env, v.ticks);
        MeteredArgs(rest.out, [v.out.value] + rest.values, rest.ticks)
  }

  // Metering an expression changes nothing but the limit: it is its meaning while the ticks last.
  lemma {:induction false} EvalIsMeaning(vm: Vm, limit: nat, n: Node, env: Env, t: nat)
    requires t <= limit
    ensures var b, r := Meaning(vm, n, env), Eval(vm, limit, n, env, t);
            r == if t + b.cost <= limit then Metered(b.out, t + b.cost) else Metered(OutOfTicks, limit + 1)
    decreases n
  {
    if t < limit {
      if n.Binary? {
        BinaryIsMeaning(vm, limit, n, env, t);
      } else if n.Unary? {
        EvalIsMeaning(vm, limit, n.operand, env, t + 1);
      } else if n.Call? {
        EvalArgsAreMeanings(vm, limit, n, 0, env, t + 1);
      } else if n.ExprStmt? {
        EvalIsMeaning(vm, limit, n.value, env, t + 1);
      }
    }
  }

  lemma {:induction false} BinaryIsMeaning(vm: Vm, limit: nat, n: Node, env: Env, t: nat)
    requires t < limit && n.Binary?
    ensures var b, r := Meaning(vm, n, env), Eval(vm, limit, n, env, t);
            r == if t + b.cost <= limit then Metered(b.out, t + b.cost) else Metered(OutOfTicks, limit + 1)
    decreases n, 0
  {
    EvalIsMeaning(vm, limit, n.left, env, t + 1);
    var l := Eval(vm, limit, n.left, env, t + 1);
    if l.out.Got? && !Decides(vm, n.tok.kind, l.out.value) {
      EvalIsMeaning(vm, limit, n.right, env, l.ticks);
    }
  }

  lemma {:induction false} EvalArgsAreMeanings(vm: Vm, limit: nat, n: Node, i: nat, env: Env, t: nat)
    requires n.Call? && i <= |n.args| && t <= limit
    ensures var b, r := Meanings(vm, n, i, env), EvalArgs(vm, limit, n, i, env, t);
            if t + b.cost > limit then r.out == OutOfTicks
            else if b.values.None? then r.out == Fault && r.ticks == t + b.cost
            else r == MeteredArgs(Done, b.values.value, t + b.cost)
    decreases n, |n.args| - i
  {
    if i < |n.args| {
      EvalIsMeaning(vm, limit, n.args[i], env, t);
      var v := Eval(vm, limit, n.args[i], env, t);
      if v.out.Got? {
        EvalArgsAreMeanings(vm, limit, n, i + 1, env, v.ticks);
      }
    }
  }

  // ---- metered statements --------------------------------------------------------------

  datatype Limits = Limits(ticks: nat, turns: nat)

  const LIMITS := Limits(MAX_INSTRUCTIONS, MAX_LOOP)

  datatype Run = Run(out: Outcome, env: Env, ticks: nat)

  // What every phase of a metered run promises about the counter.
  ghost predicate Metering(lim: Limits, t: nat, r: Run) {
    t <= r.ticks <= lim.ticks + 1 && (r.out.OutOfTicks? <==> r.ticks == lim.ticks + 1)
  }

  // A program: tick per statement, keep the last bare expression's value, stop at a RETURN.
  function ExecProgram(vm: Vm, lim: Limits, ss: seq<Node>, last: Value, env: Env, t: nat): (r: Run)
    requires t <= lim.ticks
    ensures Metering(lim, t, r) && !r.out.Done? && !r.out.Returned?
    decreases lim.ticks - t, 2
  {
    if ss == [] then Run(Got(last), env, t)
    else if t == lim.ticks then Run(OutOfTicks, env, t + 1)
    else if ss[0].ExprStmt? then
      var v := Eval(vm, lim.ticks, ss[0].value, env, t + 1);
      if v.out.Got? then ExecProgram(vm, lim, ss[1..], v.out.value, env, v.ticks) else Run(v.out, env, v.ticks)
    else
      var s := ExecStatement(vm, lim, ss[0], env, t + 1);
      if s.out.Done? then ExecProgram(vm, lim, ss[1..], last, s.env, s.ticks)
      else if s.out.Returned? then s.(out := Got(s.out.value))
      else s
  }

  function ExecStatement(vm: Vm, lim: Limits, n: Node, env: Env, t: nat): (r: Run)
    requires t <= lim.ticks
    ensures Metering(lim, t, r) && t < r.ticks && !r.out.Got?
    decreases lim.ticks - t, 0
  {
    if t == lim.ticks then Run(OutOfTicks, env, t + 1)
    else if n.If? then ExecIf(vm, lim, n.children, 0, env, t + 1)
    else if n.While? then ExecWhile(vm, lim, n.children, 0, env, t + 1)
    else if n.Program? then ExecBlock(vm, lim, n.stmts, env, t + 1)
    else if n.Let? || n.Return? || n.Assert? || n.ExprStmt? || n.Exec? || n.Mast? then
      var v := Eval(vm, lim.ticks, n.value, env, t + 1);
      if !v.out.Got? then Run(v.out, env, v.ticks)
      else if n.Let? then Run(Done, env[n.name := v.out.value], v.ticks)
      else if n.Return? then Run(Returned(v.out.value), env, v.ticks)
      else if n.Assert? then Run(if vm.IsTrue(v.out.value) then Done else Fault, env, v.ticks)
      else if n.ExprStmt? then Run(Done, env, v.ticks)
      else
        ExecScript(vm, lim, v.out.value, env, v.ticks)
    else Run(Fault, env, t + 1)
  }

  // EXEC and MAST: run a script string in the same scope with the same counter. A RETURN inside
  // ends the string only, and its value is dropped.
  function ExecScript(vm: Vm, lim: Limits, v: Value, env: Env, t: nat): (r: Run)
    requires t <= lim.ticks
    ensures Metering(lim, t, r) && !r.out.Got?
    decreases lim.ticks - t, 3
  {
    var program := if v.Script? then vm.compile(v.text) else None;
    if program.None? then Run(Fault, env, t)
    else
      var r := ExecProgram(vm, lim, program.value, Boolean(false), env, t);
      if r.out.Got? then r.(out := Done) else r
  }

  function ExecBlock(vm: Vm, lim: Limits, ss: seq<Node>, env: Env, t: nat): (r: Run)
    requires t <= lim.ticks
    ensures Metering(lim, t, r) && !r.out.Got?
    decreases lim.ticks - t, 1
  {
    if ss == [] then Run(Done, env, t)
    else
      var s := ExecStatement(vm, lim, ss[0], env, t);
      if s.out.Done? then ExecBlock(vm, lim, ss[1..], s.env, s.ticks) else s
  }

  // IF over its flat children: at an even index i, a condition follows unless only an ELSE is left.
  function ExecIf(vm: Vm, lim: Limits, cs: seq<Node>, i: nat, env: Env, t: nat): (r: Run)
    requires t <= lim.ticks
    ensures Metering(lim, t, r) && !r.out.Got?
    decreases lim.ticks - t, 1
  {
    if i == 0 || i + 1 < |cs| then
      if i >= |cs| then Run(Fault, env, t)
      else
        var c := Eval(vm, lim.ticks, cs[i], env, t);
        if !c.out.Got? then Run(c.out, env, c.ticks)
        else if !vm.IsTrue(c.out.value) then ExecIf(vm, lim, cs, i + 2, env, c.ticks)
        else if i + 1 < |cs| then ExecStatement(vm, lim, cs[i + 1], env, c.ticks)
        else Run(Fault, env, c.ticks)
    else if i < |cs| then ExecStatement(vm, lim, cs[i], env, t)
    else Run(Done, env, t)
  }

  function ExecWhile(vm: Vm, lim: Limits, cs: seq<Node>, turns: nat, env: Env, t: nat): (r: Run)
    requires t <= lim.ticks
    ensures Metering(lim, t, r) && !r.out.Got?
    decreases lim.ticks - t, 1
  {
    if turns + 1 > lim.turns then Run(OutOfTurns, env, t)
    else if t == lim.ticks then Run(OutOfTicks, env, t + 1)
    else if cs == [] then Run(Fault, env, t + 1)
    else
      var c := Eval(vm, lim.ticks, cs[0], env, t + 1);
      if !c.out.Got? then Run(c.out, env, c.ticks)
      else if !vm.IsTrue(c.out.value) then Run(Done, env, c.ticks)
      else
        var body := ExecBlock(vm, lim, cs[1..], env, c.ticks);
        if body.out.Done? then ExecWhile(vm, lim, cs, turns + 1, body.env, body.ticks) else body
  }

  // ---- unmetered statements ------------------------------------------------------------

  datatype Big = Big(out: Outcome, env: Env, cost: nat)

  // The limits are not outcomes of the unmetered semantics.
  ghost predicate Unlimited(r: Option<Big>) {
    r.Some? ==> !r.value.out.OutOfTicks? && !r.value.out.OutOfTurns?
  }

  function Plus(cost: nat, r: Option<Big>): Option<Big> {
    if r.Some? then Some(r.value.(cost := cost + r.value.cost)) else None
  }

  // The arms of an IF: (condition, block) pairs, then the ELSE block if one is left over.
  function ArmCount(cs: seq<Node>): nat { if |cs| < 2 then 1 else |cs| / 2 }

  function Condition(cs: seq<Node>, k: nat): Option<Node> {
    if 2 * k < |cs| then Some(cs[2 * k]) else None
  }

  function Block(cs: seq<Node>, k: nat): Option<Node> {
    if 2 * k + 1 < |cs| then Some(cs[2 * k + 1]) else None
  }

  function ElseBlock(cs: seq<Node>): Option<Node> {
    if |cs| >= 3 && |cs| % 2 == 1 then Some(cs[|cs| - 1]) else None
  }

  // None: not finished within `fuel` nested statements and loop turns.
  function BigProgram(vm: Vm, fuel: nat, ss: seq<Node>, last: Value, env: Env): (r: Option<Big>)
    ensures Unlimited(r)
    decreases fuel, |ss| + 2
  {
    if ss == [] then Some(Big(Got(last), env, 0))
    else if ss[0].ExprStmt? then
      var v := Meaning(vm, ss[0].value, env);
      if v.out.Got? then Plus(1 + v.cost, BigProgram(vm, fuel, ss[1..], v.out.value, env))
      else Some(Big(v.out, env, 1 + v.cost))
    else
      var s := BigStatement(vm, fuel, ss[0], env);
      if s.None? then None
      else if s.value.out.Done? then Plus(1 + s.value.cost, BigProgram(vm, fuel, ss[1..], last, s.value.env))
      else if s.value.out.Returned? then Plus(1, Some(s.value.(out := Got(s.value.out.value))))
      else Plus(1, s)
  }

  function BigStatement(vm: Vm, fuel: nat, n: Node, env: Env): (r: Option<Big>)
    ensures Unlimited(r)
    decreases fuel, 1
  {
    if fuel == 0 then None
    else if n.If? then Plus(1, BigIf(vm, fuel - 1, n.children, 0, env))
    else if n.While? then Plus(1, BigWhile(vm, fuel - 1, n.children, env))
    else if n.Program? then Plus(1, BigBlock(vm, fuel - 1, n.stmts, env))
    else if n.Let? || n.Return? || n.Assert? || n.ExprStmt? || n.Exec? || n.Mast? then
      var v := Meaning(vm, n.value, env);
      if !v.out.Got? then Some(Big(v.out, env, 1 + v.cost))
      else if n.Let? then Some(Big(Done, env[n.name := v.out.value], 1 + v.cost))
      else if n.Return? then Some(Big(Returned(v.out.value), env, 1 + v.cost))
      else if n.Assert? then Some(Big(if vm.IsTrue(v.out.value) then Done else Fault, env, 1 + v.cost))
      else if n.ExprStmt? then Some(Big(Done, env, 1 + v.cost))
      else
        Plus(1 + v.cost, BigScript(vm, fuel - 1, v.out.value, env))
    else Some(Big(Fault, env, 1))
  }

  function BigScript(vm: Vm, fuel: nat, v: Value, env: Env): (r: Option<Big>)
    ensures Unlimited(r)
    decreases fuel + 1, 0
  {
    var program := if v.Script? then vm.compile(v.text) else None;
    if program.None? then Some(Big(Fault, env, 0))
    else
      var r := BigProgram(vm, fuel, program.value, Boolean(false), env);
      if r.Some? && r.value.out.Got? then Some(r.value.(out := Done)) else r
  }

  function BigBlock(vm: Vm, fuel: nat, ss: seq<Node>, env: Env): (r: Option<Big>)
    ensures Unlimited(r)
    decreases fuel, |ss| + 1
  {
    if ss == [] then Some(Big(Done, env, 0))
    else
      var s := BigStatement(vm, fuel, ss[0], env);
      if s.Some? && s.value.out.Done? then Plus(s.value.cost, BigBlock(vm, fuel, ss[1..], s.value.env)) else s
  }

  function BigIf(vm: Vm, fuel: nat, cs: seq<Node>, k: nat, env: Env): (r: Option<Big>)
    requires k <= ArmCount(cs)
    ensures Unlimited(r)
    decreases fuel, ArmCount(cs) - k + 2
  {
    if k == ArmCount(cs) then
      if ElseBlock(cs).Some? then BigStatement(vm, fuel, ElseBlock(cs).value, env) else Some(Big(Done, env, 0))
    else if Condition(cs, k).None? then Some(Big(Fault, env, 0))
    else
      var c := Meaning(vm, Condition(cs, k).value, env);
      if !c.out.Got? then Some(Big(c.out, env, c.cost))
      else if !vm.IsTrue(c.out.value) then Plus(c.cost, BigIf(vm, fuel, cs, k + 1, env))
      else if Block(cs, k).Some? then Plus(c.cost, BigStatement(vm, fuel, Block(cs, k).value, env))
      else Some(Big(Fault, env, c.cost))
  }

  function BigWhile(vm: Vm, fuel: nat, cs: seq<Node>, env: Env): (r: Option<Big>)
    ensures Unlimited(r)
    decreases fuel, |cs| + 2
  {
    if cs == [] then Some(Big(Fault, env, 1))
    else
      var c := Meaning(vm, cs[0], env);
      if !c.out.Got? then Some(Big(c.out, env, 1 + c.cost))
      else if !vm.IsTrue(c.out.value) then Some(Big(Done, env, 1 + c.cost))
      else
        var body := BigBlock(vm, fuel, cs[1..], env);
        if body.None? then None
        else if !body.value.out.Done? then Plus(1 + c.cost, body)
        else if fuel == 0 then None
        else Plus(1 + c.cost + body.value.cost, BigWhile(vm, fuel - 1, cs, body.value.env))
  }

  // ---- the two agree -------------------------------------------------------------------

  // A metered run is the unmetered one while the ticks last; it is cut short exactly when the
  // cost exceeds the ticks left, or when fuel enough for all those ticks was not enough.
  ghost predicate Agrees(lim: Limits, t: nat, fuel: nat, r: Run, b: Option<Big>) {
    if b.Some? then
      if t + b.value.cost <= lim.ticks then r == Run(b.value.out, b.value.env, t + b.value.cost)
      else r.out.OutOfTicks?
    else fuel + t > lim.ticks ==> r.out.OutOfTicks?
  }

  lemma {:induction false} ProgramAgrees(vm: Vm, lim: Limits, fuel: nat, ss: seq<Node>, last: Value, env: Env, t: nat)
    requires t <= lim.ticks <= 2 * lim.turns
    ensures Agrees(lim, t, fuel, ExecProgram(vm, lim, ss, last, env, t), BigProgram(vm, fuel, ss, last, env))
    decreases lim.ticks - t, 2
  {
    if ss != [] && t < lim.ticks {
      if ss[0].ExprStmt? {
        ExpressionFirst(vm, lim, fuel, ss, last, env, t);
      } else {
        StatementFirst(vm, lim, fuel, ss, last, env, t);
      }
    }
  }

  lemma {:induction false} ExpressionFirst(vm: Vm, lim: Limits, fuel: nat, ss: seq<Node>, last: Value, env: Env, t: nat)
    requires t < lim.ticks <= 2 * lim.turns && ss != [] && ss[0].ExprStmt?
    ensures Agrees(lim, t, fuel, ExecProgram(vm, lim, ss, last, env, t), BigProgram(vm, fuel, ss, last, env))
    decreases lim.ticks - t, 1
  {
    EvalIsMeaning(vm, lim.ticks, ss[0].value, env, t + 1);
    var v := Eval(vm, lim.ticks, ss[0].value, env, t + 1);
    if v.out.Got? {
      ProgramAgrees(vm, lim, fuel, ss[1..], v.out.value, env, v.ticks);
    }
  }

  lemma {:induction false} StatementFirst(vm: Vm, lim: Limits, fuel: nat, ss: seq<Node>, last: Value, env: Env, t: nat)
    requires t < lim.ticks <= 2 * lim.turns && ss != [] && !ss[0].ExprStmt?
    ensures Agrees(lim, t, fuel, ExecProgram(vm, lim, ss, last, env, t), BigProgram(vm, fuel, ss, last, env))
    decreases lim.ticks - t, 1
  {
    StatementAgrees(vm, lim, fuel, ss[0], env, t + 1);
    var s := ExecStatement(vm, lim, ss[0], env, t + 1);
    if s.out.Done? {
      ProgramAgrees(vm, lim, fuel, ss[1..], last, s.env, s.ticks);
    }
  }

  lemma {:induction false} StatementAgrees(vm: Vm, lim: Limits, fuel: nat, n: Node, env: Env, t: nat)
    requires t <= lim.ticks <= 2 * lim.turns
    ensures Agrees(lim, t, fuel, ExecStatement(vm, lim, n, env, t), BigStatement(vm, fuel, n, env))
    decreases lim.ticks - t, 0, 1
  {
    if t == lim.ticks || fuel == 0 {
    } else if n.If? {
      IfAgrees(vm, lim, fuel - 1, n.children, 0, env, t + 1);
    } else if n.While? {
      WhileAgrees(vm, lim, fuel - 1, n.children, 0, env, t + 1);
    } else if n.Program? {
      BlockAgrees(vm, lim, fuel - 1, n.stmts, env, t + 1);
    } else if n.Let? || n.Return? || n.Assert? || n.ExprStmt? || n.Exec? || n.Mast? {
      ValueStatementAgrees(vm, lim, fuel, n, env, t);
    }
  }

  lemma {:induction false} ValueStatementAgrees(vm: Vm, lim: Limits, fuel: nat, n: Node, env: Env, t: nat)
    requires t < lim.ticks <= 2 * lim.turns && fuel > 0
    requires n.Let? || n.Return? || n.Assert? || n.ExprStmt? || n.Exec? || n.Mast?
    ensures Agrees(lim, t, fuel, ExecStatement(vm, lim, n, env, t), BigStatement(vm, fuel, n, env))
    decreases lim.ticks - t, 0, 0
  {
    if n.Exec? || n.Mast? {
      ExecAgrees(vm, lim, fuel, n, env, t);
    } else {
      EvalIsMeaning(vm, lim.ticks, n.value, env, t + 1);
    }
  }

  lemma {:induction false} ExecAgrees(vm: Vm, lim: Limits, fuel: nat, n: Node, env: Env, t: nat)
    requires t < lim.ticks <= 2 * lim.turns && fuel > 0 && (n.Exec? || n.Mast?)
    ensures Agrees(lim, t, fuel, ExecStatement(vm, lim, n, env, t), BigStatement(vm, fuel, n, env))
    decreases lim.ticks - t, 0, 0, 0
  {
    EvalIsMeaning(vm, lim.ticks, n.value, env, t + 1);
    var v := Eval(vm, lim.ticks, n.value, env, t + 1);
    if v.out.Got? {
      ScriptAgrees(vm, lim, fuel - 1, v.out.value, env, v.ticks);
    }
  }

  lemma {:induction false} ScriptAgrees(vm: Vm, lim: Limits, fuel: nat, v: Value, env: Env, t: nat)
    requires t <= lim.ticks <= 2 * lim.turns
    ensures Agrees(lim, t, fuel, ExecScript(vm, lim, v, env, t), BigScript(vm, fuel, v, env))
    decreases lim.ticks - t, 3
  {
    if v.Script? && vm.compile(v.text).Some? {
      ProgramAgrees(vm, lim, fuel, vm.compile(v.text).value, Boolean(false), env, t);
    }
  }

  lemma {:induction false} BlockAgrees(vm: Vm, lim: Limits, fuel: nat, ss: seq<Node>, env: Env, t: nat)
    requires t <= lim.ticks <= 2 * lim.turns
    ensures Agrees(lim, t, fuel, ExecBlock(vm, lim, ss, env, t), BigBlock(vm, fuel, ss, env))
    decreases lim.ticks - t, 1
  {
    if ss != [] {
      StatementAgrees(vm, lim, fuel, ss[0], env, t);
      var s := ExecStatement(vm, lim, ss[0], env, t);
      if s.out.Done? {
        BlockAgrees(vm, lim, fuel, ss[1..], s.env, s.ticks);
      }
    }
  }

  lemma {:induction false} IfAgrees(vm: Vm, lim: Limits, fuel: nat, cs: seq<Node>, k: nat, env: Env, t: nat)
    requires t <= lim.ticks <= 2 * lim.turns && k <= ArmCount(cs)
    ensures Agrees(lim, t, fuel, ExecIf(vm, lim, cs, 2 * k, env, t), BigIf(vm, fuel, cs, k, env))
    decreases lim.ticks - t, 1
  {
    if k == ArmCount(cs) {
      if ElseBlock(cs).Some? {
        StatementAgrees(vm, lim, fuel, ElseBlock(cs).value, env, t);
      }
    } else if 2 * k < |cs| {
      EvalIsMeaning(vm, lim.ticks, cs[2 * k], env, t);
      var c := Eval(vm, lim.ticks, cs[2 * k], env, t);
      if c.out.Got? {
        if !vm.IsTrue(c.out.value) {
          IfAgrees(vm, lim, fuel, cs, k + 1, env, c.ticks);
        } else if Block(cs, k).Some? {
          StatementAgrees(vm, lim, fuel, Block(cs, k).value, env, c.ticks);
        }
      }
    }
  }

  // Each turn costs at least two ticks, so the ticks always run out before the turns do.
  lemma {:induction false} WhileAgrees(vm: Vm, lim: Limits, fuel: nat, cs: seq<Node>, turns: nat, env: Env, t: nat)
    requires t <= lim.ticks <= 2 * lim.turns && 2 * turns < t
    ensures Agrees(lim, t, fuel, ExecWhile(vm, lim, cs, turns, env, t), BigWhile(vm, fuel, cs, env))
    decreases lim.ticks - t, 1
  {
    if t < lim.ticks && cs != [] {
      EvalIsMeaning(vm, lim.ticks, cs[0], env, t + 1);
      var c := Eval(vm, lim.ticks, cs[0], env, t + 1);
      if c.out.Got? && vm.IsTrue(c.out.value) {
        TurnAgrees(vm, lim, fuel, cs, turns, env, t);
      }
    }
  }

  // One more turn: the condition holds.
  lemma {:induction false} TurnAgrees(vm: Vm, lim: Limits, fuel: nat, cs: seq<Node>, turns: nat, env: Env, t: nat)
    requires t < lim.ticks <= 2 * lim.turns && 2 * turns < t && cs != []
    requires var c := Eval(vm, lim.ticks, cs[0], env, t + 1).out; c.Got? && vm.IsTrue(c.value)
    ensures Agrees(lim, t, fuel, ExecWhile(vm, lim, cs, turns, env, t), BigWhile(vm, fuel, cs, env))
    decreases lim.ticks - t, 0
  {
    EvalIsMeaning(vm, lim.ticks, cs[0], env, t + 1);
    var c := Eval(vm, lim.ticks, cs[0], env, t + 1);
    BlockAgrees(vm, lim, fuel, cs[1..], env, c.ticks);
    var body := ExecBlock(vm, lim, cs[1..], env, c.ticks);
    if body.out.Done? && fuel > 0 {
      WhileAgrees(vm, lim, fuel - 1, cs, turns + 1, body.env, body.ticks);
    }
  }

  // ---- whole runs ----------------------------------------------------------------------

  ghost predicate Computes(vm: Vm, ss: seq<Node>, env: Env, b: Big) {
    exists fuel: nat :: BigProgram(vm, fuel, ss, Boolean(false), env) == Some(b)
  }

  // A script has at most one unmetered result.
  lemma ComputesOnce(vm: Vm, ss: seq<Node>, env: Env, a: Big, b: Big)
    requires Computes(vm, ss, env, a) && Computes(vm, ss, env, b)
    ensures a == b
  {
    var fa: nat :| BigProgram(vm, fa, ss, Boolean(false), env) == Some(a);
    var fb: nat :| BigProgram(vm, fb, ss, Boolean(false), env) == Some(b);
    var lim := Limits(a.cost + b.cost, a.cost + b.cost);
    ProgramAgrees(vm, lim, fa, ss, Boolean(false), env, 0);
    ProgramAgrees(vm, lim, fb, ss, Boolean(false), env, 0);
  }

  // Main result. A run ends short of the instruction limit exactly when the script has a meaning
  // that costs at most that many ticks, and then value, variables and counter are the meaning's.
  lemma RunIsMeaning(vm: Vm, ss: seq<Node>, env: Env, b: Big)
    ensures var r := ExecProgram(vm, LIMITS, ss, Boolean(false), env, 0);
            (r == Run(b.out, b.env, b.cost) && !r.out.OutOfTicks?)
            <==> (Computes(vm, ss, env, b) && b.cost <= MAX_INSTRUCTIONS)
  {
    var r := ExecProgram(vm, LIMITS, ss, Boolean(false), env, 0);
    if Computes(vm, ss, env, b) {
      var fuel: nat :| BigProgram(vm, fuel, ss, Boolean(false), env) == Some(b);
      ProgramAgrees(vm, LIMITS, fuel, ss, Boolean(false), env, 0);
    }
    if !r.out.OutOfTicks? {
      ProgramAgrees(vm, LIMITS, MAX_INSTRUCTIONS + 1, ss, Boolean(false), env, 0);
      assert Computes(vm, ss, env, Big(r.out, r.env, r.ticks));
    }
  }

  // The loop limit is never what stops a run: the instruction limit comes first.
  lemma TurnsNeverRunOut(vm: Vm, ss: seq<Node>, env: Env)
    ensures !ExecProgram(vm, LIMITS, ss, Boolean(false), env, 0).out.OutOfTurns?
  {
    ProgramAgrees(vm, LIMITS, MAX_INSTRUCTIONS + 1, ss, Boolean(false), env, 0);
  }

  // A larger instruction limit changes no run that ended under a smaller one.
  lemma LargerLimitAgrees(vm: Vm, small: Limits, large: Limits, ss: seq<Node>, env: Env)
    requires small.ticks <= 2 * small.turns && large.ticks <= 2 * large.turns && small.ticks <= large.ticks
    requires !ExecProgram(vm, small, ss, Boolean(false), env, 0).out.OutOfTicks?
    ensures ExecProgram(vm, large, ss, Boolean(false), env, 0) == ExecProgram(vm, small, ss, Boolean(false), env, 0)
  {
    ProgramAgrees(vm, small, small.ticks + 1, ss, Boolean(false), env, 0);
    ProgramAgrees(vm, large, small.ticks + 1, ss, Boolean(false), env, 0);
  }

  // ---- selection in IF -----------------------------------------------------------------

  ghost predicate ConditionIs(vm: Vm, cs: seq<Node>, k: nat, env: Env, truth: bool) {
    Condition(cs, k).Some? &&
    var c := Meaning(vm, Condition(cs, k).value, env).out;
    c.Got? && vm.IsTrue(c.value) == truth
  }

  // The cost of finding the first k conditions false.
  function SkipCost(vm: Vm, cs: seq<Node>, k: nat, env: Env): nat {
    if k == 0 || 2 * k > |cs| + 1 then 0 else SkipCost(vm, cs, k - 1, env) + Meaning(vm, cs[2 * k - 2], env).cost
  }

  lemma PlusPlus(x: nat, y: nat, r: Option<Big>)
    ensures Plus(x, Plus(y, r)) == Plus(x + y, r)
  {}

  lemma {:induction false} FalseArmsAreSkipped(vm: Vm, fuel: nat, cs: seq<Node>, k: nat, env: Env)
    requires k <= ArmCount(cs) && forall j: nat | j < k :: ConditionIs(vm, cs, j, env, false)
    ensures BigIf(vm, fuel, cs, 0, env) == Plus(SkipCost(vm, cs, k, env), BigIf(vm, fuel, cs, k, env))
  {
    if k > 0 {
      FalseArmsAreSkipped(vm, fuel, cs, k - 1, env);
      assert ConditionIs(vm, cs, k - 1, env, false);
      var c := Meaning(vm, cs[2 * k - 2], env);
      PlusPlus(SkipCost(vm, cs, k - 1, env), c.cost, BigIf(vm, fuel, cs, k, env));
    }
  }

  // An IF runs the block of its first true condition and no other, in the variables it was
  // entered with; with every condition false it runs the ELSE block, or nothing.
  lemma FirstTrueArmRuns(vm: Vm, fuel: nat, cs: seq<Node>, k: nat, env: Env)
    requires |cs| >= 2 && k <= |cs| / 2
    requires forall j: nat | j < k :: ConditionIs(vm, cs, j, env, false)
    requires k < |cs| / 2 ==> ConditionIs(vm, cs, k, env, true)
    ensures BigStatement(vm, fuel + 1, If(cs), env) ==
            if k < |cs| / 2 then
              Plus(1 + SkipCost(vm, cs, k, env) + Meaning(vm, cs[2 * k], env).cost, BigStatement(vm, fuel, cs[2 * k + 1], env))
            else if |cs| % 2 == 1 then
              Plus(1 + SkipCost(vm, cs, k, env), BigStatement(vm, fuel, cs[|cs| - 1], env))
            else
              Some(Big(Done, env, 1 + SkipCost(vm, cs, k, env)))
  {
    FalseArmsAreSkipped(vm, fuel, cs, k, env);
    PlusPlus(1, SkipCost(vm, cs, k, env), BigIf(vm, fuel, cs, k, env));
    if k < |cs| / 2 {
      assert ConditionIs(vm, cs, k, env, true);
      PlusPlus(1 + SkipCost(vm, cs, k, env), Meaning(vm, cs[2 * k], env).cost, BigStatement(vm, fuel, cs[2 * k + 1], env));
    }
  }
}

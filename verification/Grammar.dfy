/** The documented expression grammar as a derivation relation, the minimal printer,
    the recursive descent as a function, and the theorems that tie them together. */
module Grammar {
  import opened Ast

  // Levels of the ladder: 0 or, 1 and, 2 not, 3 cmp, 4 add, 5 mul, 6 unary, 7 primary.
  type Level = n: nat | n <= 7

  // The level an operator belongs to; -1 for any other token.
  function OpLevel(k: TokenType): (l: int)
    ensures -1 <= l <= 5 && l != 2
  {
    match k
    case OR | NOR | XOR => 0
    case AND | NAND => 1
    case EQ | NEQ | LT | GT | LTE | GTE => 3
    case PLUS | MINUS => 4
    case MULTIPLY | DIVIDE | MODULO => 5
    case _ => -1
  }

  predicate IsOp(level: Level, k: TokenType) {
    OpLevel(k) == level
  }

  predicate LeftAssociative(level: Level) {
    level == 0 || level == 1 || level == 3 || level == 4 || level == 5
  }

  function UpperChar(c: char): char {
    if 'a' <= c <= 'z' then c - 'a' + 'A' else c
  }

  function Upper(s: string): (u: string)
    ensures |u| == |s|
  {
    seq(|s|, i requires 0 <= i < |s| => UpperChar(s[i]))
  }

  // An identifier that a following parenthesis turns into a call; names with @ never are.
  predicate Callable(t: Token) {
    t.kind == IDENTIFIER && !(t.value != "" && t.value[0] == '@')
  }

  function Leaf(t: Token): Node {
    match t.kind
    case BOOLEAN_LITERAL => BoolLit(t, t.value == "TRUE")
    case NUMBER_LITERAL => NumLit(t)
    case HEX_LITERAL => HexLit(t)
    case STRING_LITERAL => StrLit(t)
    case _ => Var(t, t.value)
  }

  predicate IsLeafToken(t: Token) {
    t.kind == BOOLEAN_LITERAL || t.kind == NUMBER_LITERAL || t.kind == HEX_LITERAL
    || t.kind == STRING_LITERAL || t.kind == IDENTIFIER
  }

  // ---- the grammar ---------------------------------------------------------------------

  // Three readings of the argument list of a call. Documented: one argument or more, a comma between
  // any two. EmptyCalls: also none. OptionalCommas: every comma may be missing and one may trail.
  datatype Dialect = Documented | EmptyCalls | OptionalCommas

  // s derives e at a level.
  ghost predicate Derives(d: Dialect, level: Level, s: seq<Token>, e: Node)
    decreases |s|, 8 - level, 0
  {
    if level == 7 then DerivesPrimary(d, s, e)
    else if level == 6 then
      || Derives(d, 7, s, e)
      || (|s| > 1 && s[0].kind == MINUS && e.Unary? && e.tok == s[0] && Derives(d, 7, s[1..], e.operand))
    else if level == 2 then
      || Derives(d, 3, s, e)
      || (|s| > 1 && s[0].kind == NOT && e.Unary? && e.tok == s[0] && Derives(d, 2, s[1..], e.operand))
    else
      || Derives(d, level + 1, s, e)
      || exists k: nat :: DerivesBinary(d, level, s, e, k)
  }

  // A leaf, a parenthesised expression or a call.
  ghost predicate DerivesPrimary(d: Dialect, s: seq<Token>, e: Node)
    decreases |s|, 0, 0
  {
    || (|s| == 1 && IsLeafToken(s[0]) && e == Leaf(s[0]))
    || (|s| > 2 && s[0].kind == LPAREN && s[|s| - 1].kind == RPAREN && Derives(d, 0, s[1..|s| - 1], e))
    || (|s| > 2 && Callable(s[0]) && s[1].kind == LPAREN && s[|s| - 1].kind == RPAREN
        && e.Call? && e.tok == s[0] && e.name == Upper(s[0].value)
        && (d.Documented? ==> e.args != []) && DerivesArgs(d, s[2..|s| - 1], e.args))
  }

  ghost predicate DerivesBinary(d: Dialect, level: Level, s: seq<Token>, e: Node, k: nat)
    requires level < 7
    decreases |s|, 8 - level, 0, 0
  {
    && 0 < k < |s| - 1 && IsOp(level, s[k].kind) && e.Binary? && e.tok == s[k]
    && Derives(d, level, s[..k], e.left) && Derives(d, level + 1, s[k + 1..], e.right)
  }

  ghost predicate DerivesArgs(d: Dialect, s: seq<Token>, args: seq<Node>)
    decreases |s|, 9
  {
    if args == [] then s == [] else exists k: nat :: DerivesFirstArg(d, s, args, k)
  }

  // The first argument is s[..k].
  ghost predicate DerivesFirstArg(d: Dialect, s: seq<Token>, args: seq<Node>, k: nat)
    requires args != []
    decreases |s|, 8, 1
  {
    && 0 < k <= |s| && Derives(d, 0, s[..k], args[0])
    && (if k < |s| && s[k].kind == COMMA then
          (d.OptionalCommas? || |args| > 1) && DerivesArgs(d, s[k + 1..], args[1..])
        else (d.OptionalCommas? || k == |s|) && DerivesArgs(d, s[k..], args[1..]))
  }

  lemma ArgsFrom(d: Dialect, s: seq<Token>, args: seq<Node>, k: nat)
    requires args != [] && DerivesFirstArg(d, s, args, k)
    ensures DerivesArgs(d, s, args)
  {
  }

  lemma FirstArg(d: Dialect, s: seq<Token>, args: seq<Node>) returns (k: nat)
    requires args != [] && DerivesArgs(d, s, args)
    ensures DerivesFirstArg(d, s, args, k)
  {
    k :| DerivesFirstArg(d, s, args, k);
  }

  // ---- the descent ---------------------------------------------------------------------

  datatype Parsed = Got(e: Node, pos: nat) | Failed

  datatype ParsedArgs = GotArgs(args: seq<Node>, pos: nat) | FailedArgs

  predicate At(ts: seq<Token>, p: nat, k: TokenType) {
    p < |ts| && ts[p].kind == k
  }

  function ParseAt(ts: seq<Token>, p: nat, level: Level): (r: Parsed)
    ensures r.Got? ==> p < r.pos <= |ts|
    decreases |ts| - p, 1, 8 - level
  {
    if p >= |ts| then Failed
    else if level == 7 then ReadPrimary(ts, p)
    else if level == 6 && ts[p].kind == MINUS then
      var r := ParseAt(ts, p + 1, 7);
      if r.Got? then Got(Unary(ts[p], r.e), r.pos) else Failed
    else if level == 2 && ts[p].kind == NOT then
      var r := ParseAt(ts, p + 1, 2);
      if r.Got? then Got(Unary(ts[p], r.e), r.pos) else Failed
    else
      var r := ParseAt(ts, p, level + 1);
      if r.Got? then Fold(ts, r.pos, level, r.e) else Failed
  }

  function ReadPrimary(ts: seq<Token>, p: nat): (r: Parsed)
    requires p < |ts|
    ensures r.Got? ==> p < r.pos <= |ts|
    decreases |ts| - p, 0
  {
    if ts[p].kind == LPAREN then
      var r := ParseAt(ts, p + 1, 0);
      if r.Got? && At(ts, r.pos, RPAREN) then Got(r.e, r.pos + 1) else Failed
    else if Callable(ts[p]) && At(ts, p + 1, LPAREN) then
      var r := ParseArgs(ts, p + 2);
      if r.GotArgs? then Got(Call(ts[p], Upper(ts[p].value), r.args), r.pos) else Failed
    else if IsLeafToken(ts[p]) then Got(Leaf(ts[p]), p + 1)
    else Failed
  }

  // The two prefix levels, where the next token is not their operator, read the level above.
  lemma PrefixAbsent(ts: seq<Token>, p: nat, level: Level)
    requires (level == 2 && !At(ts, p, NOT)) || (level == 6 && !At(ts, p, MINUS))
    ensures ParseAt(ts, p, level) == ParseAt(ts, p, level + 1)
  {
    var r := ParseAt(ts, p, level + 1);
    if r.Got? {
      assert Fold(ts, r.pos, level, r.e) == Got(r.e, r.pos);
    }
  }

  // The while loop of a left-associative level: fold operators into `left`.
  function Fold(ts: seq<Token>, p: nat, level: Level, left: Node): (r: Parsed)
    requires p <= |ts| && level < 7
    ensures r.Got? ==> p <= r.pos <= |ts|
    decreases |ts| - p, 2
  {
    if p < |ts| && IsOp(level, ts[p].kind) then
      var r := ParseAt(ts, p + 1, level + 1);
      if r.Got? then Fold(ts, r.pos, level, Binary(ts[p], left, r.e)) else Failed
    else Got(left, p)
  }

  // After the opening parenthesis of a call.
  function ParseArgs(ts: seq<Token>, p: nat): (r: ParsedArgs)
    requires p <= |ts|
    ensures r.GotArgs? ==> p < r.pos <= |ts|
    decreases |ts| - p, 2
  {
    if At(ts, p, RPAREN) then GotArgs([], p + 1)
    else
      var r := ParseAt(ts, p, 0);
      if r.Got? then MoreArgs(ts, r.pos, [r.e]) else FailedArgs
  }

  function MoreArgs(ts: seq<Token>, p: nat, args: seq<Node>): (r: ParsedArgs)
    requires p <= |ts|
    ensures r.GotArgs? ==> p < r.pos <= |ts|
    decreases |ts| - p, 2
  {
    var q := if At(ts, p, COMMA) then p + 1 else p;
    if At(ts, q, RPAREN) then GotArgs(args, q + 1)
    else
      var r := ParseAt(ts, q, 0);
      if r.Got? then MoreArgs(ts, r.pos, args + [r.e]) else FailedArgs
  }

  // ---- completeness: every derivation is found -----------------------------------------

  // Nothing at q extends an expression of this level: no operator of a tighter level,
  // and no parenthesis that would turn the identifier just read into a call.
  predicate Stops(ts: seq<Token>, q: nat, level: Level)
    requires 0 < q
  {
    q < |ts| ==>
      && OpLevel(ts[q].kind) <= level
      && (q <= |ts| && Callable(ts[q - 1]) ==> ts[q].kind != LPAREN)
  }

  // What remains to do at a level once e has been read up to q.
  function Rest(ts: seq<Token>, q: nat, level: Level, e: Node): Parsed
    requires q <= |ts|
  {
    if level < 7 then Fold(ts, q, level, e) else Got(e, q)
  }

  lemma SliceOfSlice(ts: seq<Token>, p: nat, q: nat, i: nat, j: nat)
    requires p <= q <= |ts| && i <= j <= q - p
    ensures ts[p..q][i..j] == ts[p + i..p + j]
  {
    var s, a := ts[p..q], ts[p..q][i..j];
    assert forall x :: 0 <= x < |a| ==> a[x] == s[i + x] == ts[p + (i + x)];
  }

  // Tokens an expression can begin with, apart from a minus, and those it can end with.
  predicate Begins(t: Token) {
    IsLeafToken(t) || t.kind == NOT || t.kind == LPAREN
  }

  predicate Ends(t: Token) {
    IsLeafToken(t) || t.kind == RPAREN
  }

  lemma {:induction false} FirstToken(d: Dialect, level: Level, s: seq<Token>, e: Node)
    requires Derives(d, level, s, e)
    ensures s != [] && (Begins(s[0]) || s[0].kind == MINUS)
    ensures s[0].kind == NOT ==> level <= 2
    ensures s[0].kind == MINUS ==> level <= 6
    decreases |s|, 8 - level
  {
    if level < 7 {
      if Derives(d, level + 1, s, e) {
        FirstToken(d, level + 1, s, e);
      } else if level != 6 && level != 2 {
        var k: nat :| DerivesBinary(d, level, s, e, k);
        FirstToken(d, level, s[..k], e.left);
      }
    }
  }

  lemma {:induction false} LastToken(d: Dialect, level: Level, s: seq<Token>, e: Node)
    requires Derives(d, level, s, e)
    ensures s != [] && Ends(s[|s| - 1])
    decreases |s|, 8 - level
  {
    if level < 7 {
      if Derives(d, level + 1, s, e) {
        LastToken(d, level + 1, s, e);
      } else if level == 6 || level == 2 {
        LastToken(d, if level == 6 then 7 else 2, s[1..], e.operand);
      } else {
        var k: nat :| DerivesBinary(d, level, s, e, k);
        LastToken(d, level + 1, s[k + 1..], e.right);
      }
    }
  }

  // Reading s at its level leaves only what that level's loop would do next.
  lemma {:induction false} Completeness(d: Dialect, ts: seq<Token>, p: nat, q: nat, level: Level, e: Node)
    requires !d.OptionalCommas?
    requires p <= q <= |ts| && Derives(d, level, ts[p..q], e)
    requires 0 < q && Stops(ts, q, level)
    ensures p < q && ParseAt(ts, p, level) == Rest(ts, q, level, e)
    decreases q - p, 8 - level, 1
  {
    var s := ts[p..q];
    FirstToken(d, level, s, e);
    assert s[0] == ts[p];
    if level == 7 {
      PrimaryComplete(d, ts, p, q, e);
    } else if Derives(d, level + 1, s, e) {
      FirstToken(d, level + 1, s, e);
      Completeness(d, ts, p, q, level + 1, e);
      Climb(ts, p, q, level, e);
    } else if level == 6 || level == 2 {
      assert ts[p + 1..q] == s[1..];
      Completeness(d, ts, p + 1, q, if level == 6 then 7 else 2, e.operand);
      PrefixRead(ts, p, q, level, e);
    } else {
      var k: nat :| DerivesBinary(d, level, s, e, k);
      SplitBinary(d, ts, p, q, level, e, k);
      BinaryComplete(d, ts, p, p + k, q, level, e);
    }
  }

  lemma SplitBinary(d: Dialect, ts: seq<Token>, p: nat, q: nat, level: Level, e: Node, k: nat)
    requires level < 7 && p <= q <= |ts| && DerivesBinary(d, level, ts[p..q], e, k)
    ensures p < p + k && p + k + 1 < q && IsOp(level, ts[p + k].kind) && e.Binary? && e.tok == ts[p + k]
    ensures Derives(d, level, ts[p..p + k], e.left) && Derives(d, level + 1, ts[p + k + 1..q], e.right)
  {
    var s := ts[p..q];
    SliceOfSlice(ts, p, q, 0, k);
    SliceOfSlice(ts, p, q, k + 1, |s|);
    assert ts[p + k] == s[k] && s[..k] == s[0..k] && s[k + 1..] == s[k + 1..|s|];
  }

  lemma {:induction false} BinaryComplete(d: Dialect, ts: seq<Token>, p: nat, m: nat, q: nat, level: Level, e: Node)
    requires !d.OptionalCommas?
    requires level < 7 && level != 6 && level != 2 && p < m && m + 1 < q <= |ts|
    requires IsOp(level, ts[m].kind) && e.Binary? && e.tok == ts[m]
    requires Derives(d, level, ts[p..m], e.left) && Derives(d, level + 1, ts[m + 1..q], e.right)
    requires Stops(ts, q, level)
    ensures ParseAt(ts, p, level) == Rest(ts, q, level, e)
    decreases q - p, 8 - level, 0
  {
    OpStops(ts, m, level);
    Completeness(d, ts, p, m, level, e.left);
    Completeness(d, ts, m + 1, q, level + 1, e.right);
    FoldOnce(ts, m, q, level, e);
  }

  // A level that finds neither its prefix operator nor a looser start passes its tighter level through.
  lemma Climb(ts: seq<Token>, p: nat, q: nat, level: Level, e: Node)
    requires level < 7 && p < q <= |ts| && Stops(ts, q, level)
    requires ts[p].kind == NOT ==> level + 1 <= 2
    requires ts[p].kind == MINUS ==> level + 1 <= 6
    requires ParseAt(ts, p, level + 1) == Rest(ts, q, level + 1, e)
    ensures ParseAt(ts, p, level) == Rest(ts, q, level, e)
  {
  }

  lemma PrefixRead(ts: seq<Token>, p: nat, q: nat, level: Level, e: Node)
    requires p + 1 < q <= |ts| && e.Unary? && e.tok == ts[p] && Stops(ts, q, level)
    requires (level == 6 && ts[p].kind == MINUS) || (level == 2 && ts[p].kind == NOT)
    requires var l: Level := if level == 6 then 7 else 2;
             ParseAt(ts, p + 1, l) == Rest(ts, q, l, e.operand)
    ensures ParseAt(ts, p, level) == Rest(ts, q, level, e)
  {
  }

  // One turn of the loop: the right operand is read and nothing tighter follows it.
  lemma FoldOnce(ts: seq<Token>, k: nat, q: nat, level: Level, e: Node)
    requires level < 7 && 0 < q && k + 1 < q <= |ts| && IsOp(level, ts[k].kind) && Stops(ts, q, level)
    requires e.Binary? && e.tok == ts[k] && ParseAt(ts, k + 1, level + 1) == Rest(ts, q, level + 1, e.right)
    ensures Fold(ts, k, level, e.left) == Fold(ts, q, level, e)
  {
  }

  // An operator of a level belongs to no tighter level and opens no call.
  lemma OpStops(ts: seq<Token>, q: nat, level: Level)
    requires 0 < q < |ts| && IsOp(level, ts[q].kind)
    ensures Stops(ts, q, level)
  {
  }

  lemma ClosingStops(ts: seq<Token>, q: nat)
    requires 0 < q
    requires q < |ts| ==> ts[q].kind == RPAREN || ts[q].kind == COMMA
    ensures Stops(ts, q, 0)
  {
  }

  lemma {:induction false} PrimaryComplete(d: Dialect, ts: seq<Token>, p: nat, q: nat, e: Node)
    requires !d.OptionalCommas?
    requires p <= q <= |ts| && Derives(d, 7, ts[p..q], e)
    requires 0 < q && Stops(ts, q, 7)
    ensures p < q && ParseAt(ts, p, 7) == Got(e, q)
    decreases q - p, 1, 0
  {
    SplitPrimary(d, ts, p, q, e);
    if q - p > 1 {
      ClosingStops(ts, q - 1);
      if ts[p].kind == LPAREN {
        Completeness(d, ts, p + 1, q - 1, 0, e);
        ParenRead(ts, p, q, e);
      } else {
        ArgsComplete(d, ts, p + 2, q, e.args);
      }
    }
  }

  lemma SplitPrimary(d: Dialect, ts: seq<Token>, p: nat, q: nat, e: Node)
    requires p <= q <= |ts| && Derives(d, 7, ts[p..q], e)
    ensures p < q
    ensures q - p == 1 ==> IsLeafToken(ts[p]) && e == Leaf(ts[p])
    ensures q - p > 1 ==>
              && p + 2 < q && ts[q - 1].kind == RPAREN
              && if ts[p].kind == LPAREN then Derives(d, 0, ts[p + 1..q - 1], e)
                 else Callable(ts[p]) && ts[p + 1].kind == LPAREN && e.Call? && e.tok == ts[p]
                      && e.name == Upper(ts[p].value) && (d.Documented? ==> e.args != [])
                      && DerivesArgs(d, ts[p + 2..q - 1], e.args)
  {
    var s := ts[p..q];
    assert |s| == q - p && s[0] == ts[p];
    if |s| > 1 {
      assert s[1] == ts[p + 1] && s[|s| - 1] == ts[q - 1];
      SliceOfSlice(ts, p, q, 1, |s| - 1);
      SliceOfSlice(ts, p, q, 2, |s| - 1);
    }
  }

  lemma ParenRead(ts: seq<Token>, p: nat, q: nat, e: Node)
    requires p + 2 < q <= |ts| && ts[p].kind == LPAREN && ts[q - 1].kind == RPAREN
    requires ParseAt(ts, p + 1, 0) == Rest(ts, q - 1, 0, e)
    ensures ParseAt(ts, p, 7) == Got(e, q)
  {
  }

  lemma {:induction false} ArgsComplete(d: Dialect, ts: seq<Token>, p: nat, q: nat, args: seq<Node>)
    requires !d.OptionalCommas?
    requires 0 < p < q <= |ts| && ts[q - 1].kind == RPAREN && DerivesArgs(d, ts[p..q - 1], args)
    ensures ParseArgs(ts, p) == GotArgs(args, q)
    decreases q - p, 0, 1
  {
    if args == [] {
      assert p == q - 1;
      assert ParseArgs(ts, p) == GotArgs([], q);
    } else {
      var s := ts[p..q - 1];
      var k := FirstArg(d, s, args);
      FirstArgComplete(d, ts, p, q, args, k);
      FirstArgTaken(ts, p, args[0], p + k);
      MoreArgsComplete(d, ts, p + k, q, [args[0]], args[1..]);
      assert [args[0]] + args[1..] == args;
    }
  }

  lemma FirstArgTaken(ts: seq<Token>, p: nat, arg: Node, q: nat)
    requires p < q <= |ts| && ts[p].kind != RPAREN && ParseAt(ts, p, 0) == Got(arg, q)
    ensures ParseArgs(ts, p) == MoreArgs(ts, q, [arg])
  {
  }

  lemma NoArgs(d: Dialect, args: seq<Node>)
    ensures DerivesArgs(d, [], args) ==> args == []
  {
  }

  lemma {:induction false} FirstArgComplete(d: Dialect, ts: seq<Token>, p: nat, q: nat, args: seq<Node>, k: nat)
    requires !d.OptionalCommas?
    requires p < q <= |ts| && ts[q - 1].kind == RPAREN && args != []
    requires DerivesFirstArg(d, ts[p..q - 1], args, k)
    ensures p + k < q && ParseAt(ts, p, 0) == Got(args[0], p + k) && ts[p].kind != RPAREN
    ensures ArgsFollow(d, ts, p + k, q, args[1..])
    decreases q - p, 0, 0
  {
    var s := ts[p..q - 1];
    assert ts[p..p + k] == s[..k];
    assert k < |s| ==> s[k] == ts[p + k] && ts[p + k + 1..q - 1] == s[k + 1..];
    assert k == |s| ==> s[k..] == [];
    NoArgs(d, args[1..]);
    ClosingStops(ts, p + k);
    Completeness(d, ts, p, p + k, 0, args[0]);
    assert !IsOp(0, ts[p + k].kind) && Fold(ts, p + k, 0, args[0]) == Got(args[0], p + k);
    FirstToken(d, 0, s[..k], args[0]);
    assert s[..k][0] == ts[p];
  }

  // The remaining arguments, each after a comma, up to the closing parenthesis before q.
  ghost predicate ArgsFollow(d: Dialect, ts: seq<Token>, p: nat, q: nat, more: seq<Node>)
    requires p < q <= |ts|
  {
    if more == [] then p == q - 1
    else At(ts, p, COMMA) && p + 1 < q && DerivesArgs(d, ts[p + 1..q - 1], more)
  }

  lemma {:induction false} MoreArgsComplete(d: Dialect, ts: seq<Token>, p: nat, q: nat, done: seq<Node>, more: seq<Node>)
    requires !d.OptionalCommas?
    requires p < q <= |ts| && ts[q - 1].kind == RPAREN && ArgsFollow(d, ts, p, q, more)
    ensures MoreArgs(ts, p, done) == GotArgs(done + more, q)
    decreases q - p, 0, 0
  {
    if more == [] {
      assert done + more == done;
    } else {
      HeadMoves(done, more);
      var k := FirstArg(d, ts[p + 1..q - 1], more);
      FirstArgComplete(d, ts, p + 1, q, more, k);
      NextArg(ts, p, done, more[0], p + 1 + k);
      MoreArgsComplete(d, ts, p + 1 + k, q, done + [more[0]], more[1..]);
    }
  }

  lemma NextArg(ts: seq<Token>, p: nat, done: seq<Node>, arg: Node, q: nat)
    requires p + 1 < q <= |ts| && At(ts, p, COMMA) && ts[p + 1].kind != RPAREN
    requires ParseAt(ts, p + 1, 0) == Got(arg, q)
    ensures MoreArgs(ts, p, done) == MoreArgs(ts, q, done + [arg])
  {
  }

  lemma HeadMoves(done: seq<Node>, more: seq<Node>)
    requires more != []
    ensures done + [more[0]] + more[1..] == done + more
  {
    var a, b := done + [more[0]] + more[1..], done + more;
    assert |a| == |b| && forall i :: 0 <= i < |a| ==> a[i] == b[i];
  }

  // ---- the printer ---------------------------------------------------------------------

  // The level whose rule builds e.
  function LevelOf(e: Node): Level {
    match e
    case Binary(op, _, _) => if OpLevel(op.kind) < 0 then 5 else OpLevel(op.kind)
    case Unary(op, _) => if op.kind == NOT then 2 else 6
    case _ => 7
  }

  // Expression trees as the language has them.
  predicate IsExpression(e: Node) {
    match e
    case BoolLit(t, _) => t.kind == BOOLEAN_LITERAL && e == Leaf(t)
    case NumLit(t) => t.kind == NUMBER_LITERAL
    case HexLit(t) => t.kind == HEX_LITERAL
    case StrLit(t) => t.kind == STRING_LITERAL
    case Var(t, _) => t.kind == IDENTIFIER && e == Leaf(t)
    case Binary(op, l, r) => IsOp(LevelOf(e), op.kind) && IsExpression(l) && IsExpression(r)
    case Unary(op, x) => (op.kind == NOT || op.kind == MINUS) && IsExpression(x)
    case Call(t, name, args) => Callable(t) && name == Upper(t.value) && forall i :: 0 <= i < |args| ==> IsExpression(args[i])
    case _ => false
  }

  // Every call in e has at least one argument, as the documented grammar asks.
  predicate ArgsGiven(e: Node) {
    match e
    case Binary(_, l, r) => ArgsGiven(l) && ArgsGiven(r)
    case Unary(_, x) => ArgsGiven(x)
    case Call(_, _, args) => args != [] && forall i :: 0 <= i < |args| ==> ArgsGiven(args[i])
    case _ => true
  }

  predicate Prints(d: Dialect, e: Node) {
    d.EmptyCalls? || (d.Documented? && ArgsGiven(e))
  }

  // Parentheses only where a looser rule stands in a tighter place, or on the right of its own level.
  function Print(e: Node, level: Level): (s: seq<Token>)
    requires IsExpression(e)
    decreases e, if LevelOf(e) < level then 1 else 0
  {
    if LevelOf(e) < level then [Token(LPAREN, "(")] + Print(e, 0) + [Token(RPAREN, ")")]
    else if e.Binary? then Print(e.left, LevelOf(e)) + [e.tok] + Print(e.right, LevelOf(e) + 1)
    else if e.Unary? then [e.tok] + Print(e.operand, if e.tok.kind == NOT then 2 else 7)
    else if e.Call? then [e.tok, Token(LPAREN, "(")] + PrintArgs(e.args) + [Token(RPAREN, ")")]
    else [e.tok]
  }

  function PrintArgs(args: seq<Node>): seq<Token>
    requires forall i :: 0 <= i < |args| ==> IsExpression(args[i])
    decreases args, 0
  {
    if args == [] then []
    else if |args| == 1 then Print(args[0], 0)
    else Print(args[0], 0) + [Token(COMMA, ",")] + PrintArgs(args[1..])
  }

  lemma {:induction false} DerivesLooser(d: Dialect, from: Level, level: Level, s: seq<Token>, e: Node)
    requires level <= from && Derives(d, from, s, e)
    ensures Derives(d, level, s, e)
    decreases from - level
  {
    if level < from {
      DerivesLooser(d, from, level + 1, s, e);
    }
  }

  lemma {:induction false} PrintDerives(d: Dialect, e: Node, level: Level)
    requires IsExpression(e) && Prints(d, e)
    ensures Derives(d, level, Print(e, level), e) && Print(e, level) != []
    decreases e, if LevelOf(e) < level then 2 else 1
  {
    var s := Print(e, level);
    if LevelOf(e) < level {
      PrintDerives(d, e, 0);
      ParenIntro(d, Print(e, 0), e);
      DerivesLooser(d, 7, level, s, e);
    } else {
      PrintRuleDerives(d, e);
      DerivesLooser(d, LevelOf(e), level, s, e);
    }
  }

  lemma {:induction false} PrintRuleDerives(d: Dialect, e: Node)
    requires IsExpression(e) && Prints(d, e)
    ensures var s := Print(e, LevelOf(e)); Derives(d, LevelOf(e), s, e) && s != []
    decreases e, 0
  {
    var m := LevelOf(e);
    if e.Binary? {
      PrintDerives(d, e.left, m);
      PrintDerives(d, e.right, m + 1);
      BinaryIntro(d, m, Print(e.left, m), e.tok, Print(e.right, m + 1), e.left, e.right);
    } else if e.Unary? {
      var l: Level := if m == 2 then 2 else 7;
      PrintDerives(d, e.operand, l);
      PrefixIntro(d, m, e.tok, Print(e.operand, l), e.operand);
    } else if e.Call? {
      PrintArgsDerive(d, e.args);
      CallIntro(d, e.tok, PrintArgs(e.args), e.args);
    }
  }

  lemma BinaryIntro(d: Dialect, level: Level, a: seq<Token>, op: Token, b: seq<Token>, left: Node, right: Node)
    requires level < 7 && IsOp(level, op.kind) && a != [] && b != []
    requires Derives(d, level, a, left) && Derives(d, level + 1, b, right)
    ensures Derives(d, level, a + [op] + b, Binary(op, left, right))
  {
    var s := a + [op] + b;
    assert s[..|a|] == a && s[|a|] == op && s[|a| + 1..] == b;
    assert DerivesBinary(d, level, s, Binary(op, left, right), |a|);
  }

  lemma PrefixIntro(d: Dialect, level: Level, op: Token, s: seq<Token>, e: Node)
    requires (level == 2 && op.kind == NOT) || (level == 6 && op.kind == MINUS)
    requires s != [] && Derives(d, if level == 2 then 2 else 7, s, e)
    ensures Derives(d, level, [op] + s, Unary(op, e))
  {
    assert ([op] + s)[1..] == s;
  }

  lemma CallIntro(d: Dialect, t: Token, s: seq<Token>, args: seq<Node>)
    requires Callable(t) && DerivesArgs(d, s, args) && (d.Documented? ==> args != [])
    ensures Derives(d, 7, [t, Token(LPAREN, "(")] + s + [Token(RPAREN, ")")], Call(t, Upper(t.value), args))
  {
    var all := [t, Token(LPAREN, "(")] + s + [Token(RPAREN, ")")];
    assert all[2..|all| - 1] == s;
  }

  lemma ParenIntro(d: Dialect, s: seq<Token>, e: Node)
    requires s != [] && Derives(d, 0, s, e)
    ensures Derives(d, 7, [Token(LPAREN, "(")] + s + [Token(RPAREN, ")")], e)
  {
    var all := [Token(LPAREN, "(")] + s + [Token(RPAREN, ")")];
    assert all[1..|all| - 1] == s;
  }

  lemma {:induction false} PrintArgsDerive(d: Dialect, args: seq<Node>)
    requires forall i :: 0 <= i < |args| ==> IsExpression(args[i]) && Prints(d, args[i])
    ensures DerivesArgs(d, PrintArgs(args), args)
    decreases args, 0
  {
    if args != [] {
      var s, k := PrintArgs(args), |Print(args[0], 0)|;
      PrintDerives(d, args[0], 0);
      assert s[..k] == Print(args[0], 0);
      if |args| == 1 {
        assert args[1..] == [] && s[k..] == [];
      } else {
        PrintArgsDerive(d, args[1..]);
        assert s[k + 1..] == PrintArgs(args[1..]);
      }
      ArgsFrom(d, s, args, k);
    }
  }

  // Main result: any derivation of the documented grammar, and so the minimal printing of any tree,
  // followed by tokens that cannot continue it, is read back as exactly that tree, stopping there.
  lemma ParseInvertsGrammar(d: Dialect, s: seq<Token>, rest: seq<Token>, e: Node)
    requires !d.OptionalCommas?
    requires Derives(d, 0, s, e) && s != [] && Stops(s + rest, |s|, 0)
    requires rest != [] ==> !IsOp(0, rest[0].kind)
    ensures ParseAt(s + rest, 0, 0) == Got(e, |s|)
  {
    assert (s + rest)[0..|s|] == s;
    Completeness(d, s + rest, 0, |s|, 0, e);
  }

  lemma ParseInvertsPrint(e: Node, rest: seq<Token>)
    requires IsExpression(e)
    requires rest != [] ==> OpLevel(rest[0].kind) < 0
    requires rest != [] && rest[0].kind == LPAREN ==> !Callable(([EOF] + Print(e, 0))[|Print(e, 0)|])
    ensures ParseAt(Print(e, 0) + rest, 0, 0) == Got(e, |Print(e, 0)|)
  {
    PrintDerives(EmptyCalls, e, 0);
    ParseInvertsGrammar(EmptyCalls, Print(e, 0), rest, e);
  }

  // The documented grammar is unambiguous, and stays so with empty calls.
  lemma Unambiguous(d: Dialect, s: seq<Token>, e: Node, f: Node)
    requires !d.OptionalCommas? && Derives(d, 0, s, e) && Derives(d, 0, s, f)
    ensures e == f
  {
    FirstToken(d, 0, s, e);
    ParseInvertsGrammar(d, s, [], e);
    ParseInvertsGrammar(d, s, [], f);
  }

  // ---- separation ----------------------------------------------------------------------

  // u may directly follow t: no operand directly after an operand, except a parenthesis that opens a
  // call; no closing parenthesis directly after a comma or an opening parenthesis.
  predicate Adjoins(t: Token, u: Token) {
    && (Ends(t) && Begins(u) ==> Callable(t) && u.kind == LPAREN)
    && (t.kind == COMMA || t.kind == LPAREN ==> u.kind != RPAREN)
  }

  predicate Separated(s: seq<Token>) {
    forall i :: 0 <= i < |s| - 1 ==> Adjoins(s[i], s[i + 1])
  }

  lemma SeparatedConcat(a: seq<Token>, b: seq<Token>)
    requires Separated(a) && Separated(b)
    requires a != [] && b != [] ==> Adjoins(a[|a| - 1], b[0])
    ensures Separated(a + b)
  {
    var s := a + b;
    forall i | 0 <= i < |s| - 1
      ensures Adjoins(s[i], s[i + 1])
    {
      if i >= |a| {
        assert s[i] == b[i - |a|] && s[i + 1] == b[i - |a| + 1];
      }
    }
  }

  // x between an opening and a closing token.
  lemma SeparatedWrap(open: seq<Token>, x: seq<Token>, close: seq<Token>)
    requires Separated(open) && Separated(x) && Separated(close) && open != [] && x != [] && close != []
    requires Adjoins(open[|open| - 1], x[0]) && Adjoins(x[|x| - 1], close[0])
    ensures Separated(open + x + close)
  {
    SeparatedConcat(open, x);
    SeparatedConcat(open + x, close);
  }

  // What the documented grammar derives is separated.
  lemma {:induction false} DerivesSeparated(level: Level, s: seq<Token>, e: Node)
    requires Derives(Documented, level, s, e)
    ensures Separated(s)
    decreases |s|, 8 - level, 0
  {
    if level == 7 {
      PrimarySeparated(s, e);
    } else if Derives(Documented, level + 1, s, e) {
      DerivesSeparated(level + 1, s, e);
    } else if level == 6 || level == 2 {
      var l: Level := if level == 6 then 7 else 2;
      DerivesSeparated(l, s[1..], e.operand);
      FirstToken(Documented, l, s[1..], e.operand);
      PrefixJoins(s[0], s[1..]);
      assert s == [s[0]] + s[1..];
    } else {
      var k: nat :| DerivesBinary(Documented, level, s, e, k);
      DerivesSeparated(level, s[..k], e.left);
      DerivesSeparated(level + 1, s[k + 1..], e.right);
      LastToken(Documented, level, s[..k], e.left);
      FirstToken(Documented, level + 1, s[k + 1..], e.right);
      OperatorJoins(level, s[..k], s[k], s[k + 1..]);
      assert s == s[..k] + [s[k]] + s[k + 1..];
    }
  }

  lemma PrefixJoins(op: Token, b: seq<Token>)
    requires op.kind == NOT || op.kind == MINUS
    requires b != [] && Separated(b) && (Begins(b[0]) || b[0].kind == MINUS)
    ensures Separated([op] + b)
  {
    SeparatedConcat([op], b);
  }

  lemma OperatorJoins(level: Level, a: seq<Token>, op: Token, b: seq<Token>)
    requires IsOp(level, op.kind) && a != [] && Separated(a) && Ends(a[|a| - 1])
    requires b != [] && Separated(b) && (Begins(b[0]) || b[0].kind == MINUS)
    ensures Separated(a + [op] + b)
  {
    SeparatedWrap(a, [op], b);
  }

  lemma {:induction false} PrimarySeparated(s: seq<Token>, e: Node)
    requires Derives(Documented, 7, s, e)
    ensures Separated(s)
    decreases |s|, 0, 0
  {
    if |s| > 1 {
      var n := |s| - 1;
      if s[0].kind == LPAREN {
        DerivesSeparated(0, s[1..n], e);
        FirstToken(Documented, 0, s[1..n], e);
        LastToken(Documented, 0, s[1..n], e);
        ParensJoin(s, 1);
      } else {
        ArgsSeparated(s[2..n], e.args);
        ParensJoin(s, 2);
      }
    }
  }

  lemma ParensJoin(s: seq<Token>, k: nat)
    requires 0 < k < |s| - 1 && s[k - 1].kind == LPAREN && s[|s| - 1].kind == RPAREN && Separated(s[..k])
    requires var x := s[k..|s| - 1]; Separated(x) && (Begins(x[0]) || x[0].kind == MINUS) && Ends(x[|x| - 1])
    ensures Separated(s)
  {
    SeparatedWrap(s[..k], s[k..|s| - 1], s[|s| - 1..]);
    assert s == s[..k] + s[k..|s| - 1] + s[|s| - 1..];
  }

  lemma {:induction false} ArgsSeparated(s: seq<Token>, args: seq<Node>)
    requires DerivesArgs(Documented, s, args) && args != []
    ensures s != [] && Separated(s) && Ends(s[|s| - 1]) && (Begins(s[0]) || s[0].kind == MINUS)
    decreases |s|, 9
  {
    var k := FirstArg(Documented, s, args);
    DerivesSeparated(0, s[..k], args[0]);
    FirstToken(Documented, 0, s[..k], args[0]);
    LastToken(Documented, 0, s[..k], args[0]);
    if k < |s| {
      ArgsSeparated(s[k + 1..], args[1..]);
      CommaJoins(s[..k], s[k], s[k + 1..]);
      assert s == s[..k] + [s[k]] + s[k + 1..];
    } else {
      assert s[..k] == s;
    }
  }

  lemma CommaJoins(a: seq<Token>, comma: Token, b: seq<Token>)
    requires a != [] && Separated(a) && Ends(a[|a| - 1]) && comma.kind == COMMA
    requires b != [] && Separated(b) && (Begins(b[0]) || b[0].kind == MINUS)
    ensures Separated(a + [comma] + b)
  {
    SeparatedWrap(a, [comma], b);
  }

  // Neighbours in a separated stretch of tokens adjoin.
  lemma AdjoinAt(ts: seq<Token>, i: nat, j: nat, k: nat)
    requires i <= k && k + 1 < j <= |ts| && Separated(ts[i..j])
    ensures Adjoins(ts[k], ts[k + 1])
  {
    assert Adjoins(ts[i..j][k - i], ts[i..j][k - i + 1]);
  }

  lemma SeparatedPart(ts: seq<Token>, i: nat, j: nat, a: nat, b: nat)
    requires i <= a <= b <= j <= |ts| && Separated(ts[i..j])
    ensures Separated(ts[a..b])
  {
    forall k | 0 <= k < |ts[a..b]| - 1
      ensures Adjoins(ts[a..b][k], ts[a..b][k + 1])
    {
      AdjoinAt(ts, i, j, a + k);
    }
  }

  // ---- soundness: what is read derives -------------------------------------------------

  // A reading is accounted for in a dialect: always where commas are optional, and in the documented
  // grammar where the tokens read are separated.
  predicate Accounted(d: Dialect, ts: seq<Token>, p: nat, q: nat) {
    p <= q <= |ts| && (d.OptionalCommas? || (d.Documented? && Separated(ts[p..q])))
  }

  lemma AccountedPart(d: Dialect, ts: seq<Token>, i: nat, j: nat, a: nat, b: nat)
    requires Accounted(d, ts, i, j) && i <= a <= b <= j
    ensures Accounted(d, ts, a, b)
  {
    if d.Documented? {
      SeparatedPart(ts, i, j, a, b);
    }
  }

  // An expression of a level was read up to q: it ends there, and nothing of the level goes on.
  predicate Ended(ts: seq<Token>, q: nat, level: Level) {
    && 0 < q <= |ts| && Ends(ts[q - 1])
    && (q < |ts| ==> OpLevel(ts[q].kind) < level && !(Callable(ts[q - 1]) && ts[q].kind == LPAREN))
  }

  lemma {:induction false} ReadEnds(ts: seq<Token>, p: nat, level: Level)
    requires ParseAt(ts, p, level).Got?
    ensures Begins(ts[p]) || ts[p].kind == MINUS
    ensures Ended(ts, ParseAt(ts, p, level).pos, level)
    decreases |ts| - p, 1, 8 - level
  {
    if level == 7 {
      PrimaryEnds(ts, p);
    } else if (level == 6 && ts[p].kind == MINUS) || (level == 2 && ts[p].kind == NOT) {
      ReadEnds(ts, p + 1, if level == 6 then 7 else 2);
    } else {
      ReadEnds(ts, p, level + 1);
      var first := ParseAt(ts, p, level + 1);
      FoldEnds(ts, first.pos, level, first.e);
    }
  }

  lemma {:induction false} FoldEnds(ts: seq<Token>, k: nat, level: Level, left: Node)
    requires level < 7 && k <= |ts| && Ended(ts, k, level + 1) && Fold(ts, k, level, left).Got?
    ensures Ended(ts, Fold(ts, k, level, left).pos, level)
    decreases |ts| - k, 2
  {
    if k < |ts| && IsOp(level, ts[k].kind) {
      FoldTurn(ts, k, level, left);
      ReadEnds(ts, k + 1, level + 1);
      var r := ParseAt(ts, k + 1, level + 1);
      FoldEnds(ts, r.pos, level, Binary(ts[k], left, r.e));
    }
  }

  lemma FoldTurn(ts: seq<Token>, k: nat, level: Level, left: Node)
    requires level < 7 && k < |ts| && IsOp(level, ts[k].kind) && Fold(ts, k, level, left).Got?
    ensures var r := ParseAt(ts, k + 1, level + 1);
            r.Got? && k + 1 < r.pos <= Fold(ts, k, level, left).pos <= |ts|
            && Fold(ts, k, level, left) == Fold(ts, r.pos, level, Binary(ts[k], left, r.e))
  {
  }

  lemma PrimaryEnds(ts: seq<Token>, p: nat)
    requires p < |ts| && ReadPrimary(ts, p).Got?
    ensures Begins(ts[p]) && Ended(ts, ReadPrimary(ts, p).pos, 7)
  {
    if ts[p].kind == LPAREN {
      var q := ParseAt(ts, p + 1, 0).pos + 1;
      assert ReadPrimary(ts, p).pos == q;
      PrimaryEnded(ts, q);
    } else if Callable(ts[p]) && At(ts, p + 1, LPAREN) {
      CallEnds(ts, p);
    } else {
      PrimaryEnded(ts, p + 1);
    }
  }

  lemma CallEnds(ts: seq<Token>, p: nat)
    requires p < |ts| && Callable(ts[p]) && At(ts, p + 1, LPAREN) && ReadPrimary(ts, p).Got?
    ensures Ended(ts, ReadPrimary(ts, p).pos, 7)
  {
    var q := ParseArgs(ts, p + 2).pos;
    assert ReadPrimary(ts, p).pos == q;
    ArgsEnd(ts, p + 2);
    PrimaryEnded(ts, q);
  }

  lemma PrimaryEnded(ts: seq<Token>, q: nat)
    requires 0 < q <= |ts|
    requires ts[q - 1].kind == RPAREN || (IsLeafToken(ts[q - 1]) && !(Callable(ts[q - 1]) && At(ts, q, LPAREN)))
    ensures Ended(ts, q, 7)
  {
  }

  lemma {:induction false} ArgsEnd(ts: seq<Token>, p: nat)
    requires p <= |ts| && ParseArgs(ts, p).GotArgs?
    ensures ts[ParseArgs(ts, p).pos - 1].kind == RPAREN
  {
    if !At(ts, p, RPAREN) {
      var r := ParseAt(ts, p, 0);
      MoreArgsEnd(ts, r.pos, [r.e]);
    }
  }

  lemma {:induction false} MoreArgsEnd(ts: seq<Token>, p: nat, done: seq<Node>)
    requires p <= |ts| && MoreArgs(ts, p, done).GotArgs?
    ensures ts[MoreArgs(ts, p, done).pos - 1].kind == RPAREN
    decreases |ts| - p
  {
    var q := if At(ts, p, COMMA) then p + 1 else p;
    if !At(ts, q, RPAREN) {
      var r := ParseAt(ts, q, 0);
      MoreArgsEnd(ts, r.pos, done + [r.e]);
    }
  }

  lemma {:induction false} Soundness(d: Dialect, ts: seq<Token>, p: nat, level: Level)
    requires ParseAt(ts, p, level).Got? && Accounted(d, ts, p, ParseAt(ts, p, level).pos)
    ensures var r := ParseAt(ts, p, level); p < r.pos <= |ts| && Derives(d, level, ts[p..r.pos], r.e)
    decreases |ts| - p, 1, 8 - level
  {
    var r := ParseAt(ts, p, level);
    var s := ts[p..r.pos];
    if level == 7 {
      PrimarySound(d, ts, p);
    } else if (level == 6 && ts[p].kind == MINUS) || (level == 2 && ts[p].kind == NOT) {
      AccountedPart(d, ts, p, r.pos, p + 1, r.pos);
      Soundness(d, ts, p + 1, if level == 6 then 7 else 2);
      assert s[1..] == ts[p + 1..r.pos];
    } else {
      var first := ParseAt(ts, p, level + 1);
      AccountedPart(d, ts, p, r.pos, p, first.pos);
      Soundness(d, ts, p, level + 1);
      DerivesLooser(d, level + 1, level, ts[p..first.pos], first.e);
      FoldSound(d, ts, p, first.pos, level, first.e);
    }
  }

  lemma {:induction false} FoldSound(d: Dialect, ts: seq<Token>, p: nat, k: nat, level: Level, left: Node)
    requires p < k <= |ts| && level < 7 && Derives(d, level, ts[p..k], left)
    requires level == 6 || level == 2 || LeftAssociative(level)
    requires Fold(ts, k, level, left).Got? && Accounted(d, ts, p, Fold(ts, k, level, left).pos)
    ensures var r := Fold(ts, k, level, left); k <= r.pos <= |ts| && Derives(d, level, ts[p..r.pos], r.e)
    decreases |ts| - k, 2
  {
    if k < |ts| && IsOp(level, ts[k].kind) {
      FoldTurn(ts, k, level, left);
      var r := ParseAt(ts, k + 1, level + 1);
      AccountedPart(d, ts, p, Fold(ts, k, level, left).pos, k + 1, r.pos);
      Soundness(d, ts, k + 1, level + 1);
      BinaryFrom(d, ts, p, k, r.pos, level, left, r.e);
      FoldSound(d, ts, p, r.pos, level, Binary(ts[k], left, r.e));
    }
  }

  lemma BinaryFrom(d: Dialect, ts: seq<Token>, p: nat, k: nat, q: nat, level: Level, left: Node, right: Node)
    requires level < 7 && p < k && k + 1 < q <= |ts| && IsOp(level, ts[k].kind)
    requires Derives(d, level, ts[p..k], left) && Derives(d, level + 1, ts[k + 1..q], right)
    ensures Derives(d, level, ts[p..q], Binary(ts[k], left, right))
  {
    BinaryIntro(d, level, ts[p..k], ts[k], ts[k + 1..q], left, right);
    assert ts[p..q] == ts[p..k] + [ts[k]] + ts[k + 1..q];
  }

  lemma {:induction false} PrimarySound(d: Dialect, ts: seq<Token>, p: nat)
    requires ParseAt(ts, p, 7).Got? && Accounted(d, ts, p, ParseAt(ts, p, 7).pos)
    ensures var r := ParseAt(ts, p, 7); p < r.pos <= |ts| && Derives(d, 7, ts[p..r.pos], r.e)
    decreases |ts| - p, 1, 0
  {
    if ts[p].kind == LPAREN {
      var inner := ParseAt(ts, p + 1, 0);
      AccountedPart(d, ts, p, inner.pos + 1, p + 1, inner.pos);
      Soundness(d, ts, p + 1, 0);
      ParenFrom(d, ts, p, inner.pos + 1, inner.e);
    } else if Callable(ts[p]) && At(ts, p + 1, LPAREN) {
      CallSound(d, ts, p);
    } else {
      assert ts[p..p + 1] == [ts[p]];
    }
  }

  lemma {:induction false} CallSound(d: Dialect, ts: seq<Token>, p: nat)
    requires p < |ts| && Callable(ts[p]) && At(ts, p + 1, LPAREN) && ParseArgs(ts, p + 2).GotArgs?
    requires Accounted(d, ts, p, ParseArgs(ts, p + 2).pos)
    ensures var args := ParseArgs(ts, p + 2);
            p + 2 < args.pos <= |ts| && Derives(d, 7, ts[p..args.pos], Call(ts[p], Upper(ts[p].value), args.args))
    decreases |ts| - p, 0, 1
  {
    var args := ParseArgs(ts, p + 2);
    AccountedPart(d, ts, p, args.pos, p + 1, args.pos);
    ArgsSound(d, ts, p + 2, args.args, args.pos);
    CallFrom(d, ts, p, args.pos, args.args);
  }

  lemma ParenFrom(d: Dialect, ts: seq<Token>, p: nat, q: nat, e: Node)
    requires p + 2 < q <= |ts| && ts[p].kind == LPAREN && ts[q - 1].kind == RPAREN
    requires Derives(d, 0, ts[p + 1..q - 1], e)
    ensures Derives(d, 7, ts[p..q], e)
  {
    var s := ts[p..q];
    assert s[0] == ts[p] && s[|s| - 1] == ts[q - 1];
    SliceOfSlice(ts, p, q, 1, |s| - 1);
  }

  lemma CallFrom(d: Dialect, ts: seq<Token>, p: nat, q: nat, args: seq<Node>)
    requires p + 2 < q <= |ts| && Callable(ts[p]) && ts[p + 1].kind == LPAREN && ts[q - 1].kind == RPAREN
    requires DerivesArgs(d, ts[p + 2..q - 1], args) && (d.Documented? ==> args != [])
    ensures Derives(d, 7, ts[p..q], Call(ts[p], Upper(ts[p].value), args))
  {
    var s := ts[p..q];
    assert s[0] == ts[p] && s[1] == ts[p + 1] && s[|s| - 1] == ts[q - 1];
    SliceOfSlice(ts, p, q, 2, |s| - 1);
  }

  // From the token after the opening parenthesis at p - 1.
  lemma {:induction false} ArgsSound(d: Dialect, ts: seq<Token>, p: nat, args: seq<Node>, end: nat)
    requires 0 < p <= |ts| && ts[p - 1].kind == LPAREN && ParseArgs(ts, p) == GotArgs(args, end)
    requires Accounted(d, ts, p - 1, end)
    ensures p < end <= |ts| && ts[end - 1].kind == RPAREN && DerivesArgs(d, ts[p..end - 1], args)
    ensures d.Documented? ==> args != []
    decreases |ts| - p, 2
  {
    if At(ts, p, RPAREN) {
      assert ts[p..p] == [];
      if d.Documented? {
        AdjoinAt(ts, p - 1, end, p - 1);
      }
    } else {
      FirstArgStands(d, ts, p, end);
      Soundness(d, ts, p, 0);
      var r := ParseAt(ts, p, 0);
      var more := MoreArgsSound(d, ts, r.pos, [r.e], args, end);
      ConsArg(d, ts, p, r.pos, end - 1, r.e, more);
    }
  }

  // Where the first argument at p lies.
  lemma FirstArgStands(d: Dialect, ts: seq<Token>, p: nat, end: nat)
    requires 0 < p <= |ts| && !At(ts, p, RPAREN) && ParseArgs(ts, p).GotArgs? && ParseArgs(ts, p).pos == end
    requires Accounted(d, ts, p - 1, end)
    ensures var r := ParseAt(ts, p, 0);
            r.Got? && ParseArgs(ts, p) == MoreArgs(ts, r.pos, [r.e]) && Ended(ts, r.pos, 0)
            && Accounted(d, ts, p, r.pos) && Accounted(d, ts, r.pos - 1, end)
  {
    FirstArgRead(ts, p);
    ReadEnds(ts, p, 0);
    var r := ParseAt(ts, p, 0);
    MoreArgsPast(ts, r.pos, [r.e]);
    AccountedPart(d, ts, p - 1, end, p, r.pos);
    AccountedPart(d, ts, p - 1, end, r.pos - 1, end);
  }

  lemma FirstArgRead(ts: seq<Token>, p: nat)
    requires p <= |ts| && !At(ts, p, RPAREN) && ParseArgs(ts, p).GotArgs?
    ensures var r := ParseAt(ts, p, 0); r.Got? && ParseArgs(ts, p) == MoreArgs(ts, r.pos, [r.e])
  {
  }

  lemma MoreArgsPast(ts: seq<Token>, p: nat, done: seq<Node>)
    requires p <= |ts| && MoreArgs(ts, p, done).GotArgs?
    ensures p < MoreArgs(ts, p, done).pos <= |ts|
  {
  }

  // Tokens after an argument: a comma and further arguments, or nothing; where commas are optional,
  // further arguments with or without the comma.
  ghost predicate Follow(d: Dialect, ts: seq<Token>, p: nat, q: nat, more: seq<Node>)
    requires p <= q <= |ts|
  {
    if p < q && ts[p].kind == COMMA then
      (d.OptionalCommas? || more != []) && DerivesArgs(d, ts[p + 1..q], more)
    else (d.OptionalCommas? || p == q) && DerivesArgs(d, ts[p..q], more)
  }

  lemma ConsArg(d: Dialect, ts: seq<Token>, p: nat, k: nat, q: nat, arg: Node, more: seq<Node>)
    requires p < k <= q <= |ts| && Derives(d, 0, ts[p..k], arg) && Follow(d, ts, k, q, more)
    ensures DerivesArgs(d, ts[p..q], [arg] + more)
  {
    var s, args := ts[p..q], [arg] + more;
    SliceOfSlice(ts, p, q, 0, k - p);
    SliceOfSlice(ts, p, q, k - p, q - p);
    assert s[..k - p] == ts[p..k] && s[k - p..] == ts[k..q] && args[1..] == more;
    if k < q && ts[k].kind == COMMA {
      SliceOfSlice(ts, p, q, k - p + 1, q - p);
      assert s[k - p] == ts[k] && s[k - p + 1..] == ts[k + 1..q];
    }
    ArgsFrom(d, s, args, k - p);
  }

  // From just after an argument.
  lemma {:induction false} MoreArgsSound(d: Dialect, ts: seq<Token>, p: nat, done: seq<Node>, args: seq<Node>, end: nat)
    returns (more: seq<Node>)
    requires p <= |ts| && Ended(ts, p, 0) && MoreArgs(ts, p, done) == GotArgs(args, end)
    requires Accounted(d, ts, p - 1, end)
    ensures p < end <= |ts| && ts[end - 1].kind == RPAREN && args == done + more
    ensures Follow(d, ts, p, end - 1, more)
    decreases |ts| - p, 3
  {
    var q := if At(ts, p, COMMA) then p + 1 else p;
    if At(ts, q, RPAREN) {
      more := [];
      ArgsClosed(d, ts, p, q, done, end);
      assert done + [] == done;
    } else {
      more := NextArgSound(d, ts, p, q, done, args, end);
    }
  }

  lemma {:induction false} NextArgSound(d: Dialect, ts: seq<Token>, p: nat, q: nat, done: seq<Node>, args: seq<Node>, end: nat)
    returns (more: seq<Node>)
    requires p <= |ts| && Ended(ts, p, 0) && MoreArgs(ts, p, done) == GotArgs(args, end)
    requires q == (if At(ts, p, COMMA) then p + 1 else p) && !At(ts, q, RPAREN)
    requires Accounted(d, ts, p - 1, end)
    ensures p < end <= |ts| && ts[end - 1].kind == RPAREN && args == done + more
    ensures Follow(d, ts, p, end - 1, more)
    decreases |ts| - p, 2
  {
    var e, k := NextArgStands(d, ts, p, q, done, args, end);
    Soundness(d, ts, q, 0);
    var rest := MoreArgsSound(d, ts, k, done + [e], args, end);
    Regroup(done, e, rest);
    NextFollows(d, ts, p, q, k, end - 1, e, rest);
    more := [e] + rest;
  }

  // Where the next argument at q lies, and that it has its comma if the dialect asks for one.
  lemma NextArgStands(d: Dialect, ts: seq<Token>, p: nat, q: nat, done: seq<Node>, args: seq<Node>, end: nat)
    returns (e: Node, k: nat)
    requires Ended(ts, p, 0) && q == (if At(ts, p, COMMA) then p + 1 else p) && !At(ts, q, RPAREN)
    requires MoreArgs(ts, p, done) == GotArgs(args, end) && Accounted(d, ts, p - 1, end)
    ensures ParseAt(ts, q, 0) == Got(e, k) && q < k < end <= |ts| && MoreArgs(ts, k, done + [e]) == GotArgs(args, end)
    ensures Ended(ts, k, 0) && Accounted(d, ts, q, k) && Accounted(d, ts, k - 1, end)
    ensures d.OptionalCommas? || q == p + 1
  {
    LaxNextArg(ts, p, q, done);
    ReadEnds(ts, q, 0);
    var r := ParseAt(ts, q, 0);
    e, k := r.e, r.pos;
    MoreArgsPast(ts, k, done + [e]);
    NoMissingComma(d, ts, p, q, end);
    AccountedPart(d, ts, p - 1, end, q, k);
    AccountedPart(d, ts, p - 1, end, k - 1, end);
  }

  // The list closes at q, and there is no comma before unless the dialect lets one trail.
  lemma ArgsClosed(d: Dialect, ts: seq<Token>, p: nat, q: nat, done: seq<Node>, end: nat)
    requires 0 < p <= |ts| && q == (if At(ts, p, COMMA) then p + 1 else p) && At(ts, q, RPAREN)
    requires MoreArgs(ts, p, done).GotArgs? && MoreArgs(ts, p, done).pos == end && Accounted(d, ts, p - 1, end)
    ensures MoreArgs(ts, p, done) == GotArgs(done, end) && end == q + 1 && Follow(d, ts, p, end - 1, [])
  {
    assert MoreArgs(ts, p, done) == GotArgs(done, q + 1);
    assert ts[q..q] == [];
    if d.Documented? && q == p + 1 {
      AdjoinAt(ts, p - 1, end, p);
    }
  }

  // An argument that follows another without a comma stands directly after an operand.
  lemma NoMissingComma(d: Dialect, ts: seq<Token>, p: nat, q: nat, end: nat)
    requires Ended(ts, p, 0) && q == (if At(ts, p, COMMA) then p + 1 else p)
    requires q < |ts| && (Begins(ts[q]) || ts[q].kind == MINUS) && q < end && Accounted(d, ts, p - 1, end)
    ensures d.Documented? ==> q == p + 1
  {
    if d.Documented? && q == p {
      AdjoinAt(ts, p - 1, end, p - 1);
    }
  }

  lemma LaxNextArg(ts: seq<Token>, p: nat, q: nat, done: seq<Node>)
    requires p <= |ts| && q == (if At(ts, p, COMMA) then p + 1 else p) && !At(ts, q, RPAREN)
    requires MoreArgs(ts, p, done).GotArgs?
    ensures var r := ParseAt(ts, q, 0); r.Got? && MoreArgs(ts, p, done) == MoreArgs(ts, r.pos, done + [r.e])
  {
  }

  lemma Regroup(done: seq<Node>, e: Node, rest: seq<Node>)
    ensures done + [e] + rest == done + ([e] + rest)
  {
  }

  lemma NextFollows(d: Dialect, ts: seq<Token>, p: nat, q: nat, k: nat, end: nat, arg: Node, rest: seq<Node>)
    requires p <= |ts| && q == (if At(ts, p, COMMA) then p + 1 else p) && (d.OptionalCommas? || q == p + 1)
    requires q < k <= end <= |ts| && Derives(d, 0, ts[q..k], arg) && Follow(d, ts, k, end, rest)
    ensures Follow(d, ts, p, end, [arg] + rest)
  {
    ConsArg(d, ts, q, k, end, arg, rest);
  }

  // Main result: what is read is in the documented grammar exactly when the tokens read are separated,
  // and where they are not, no other tree derives from them either.
  lemma ReadDerivesIffSeparated(ts: seq<Token>, p: nat, level: Level)
    requires ParseAt(ts, p, level).Got?
    ensures var r := ParseAt(ts, p, level);
            Derives(Documented, level, ts[p..r.pos], r.e) <==> Separated(ts[p..r.pos])
    ensures var s := ts[p..ParseAt(ts, p, level).pos];
            (exists e: Node :: Derives(Documented, level, s, e)) <==> Separated(s)
  {
    var r := ParseAt(ts, p, level);
    forall e: Node | Derives(Documented, level, ts[p..r.pos], e)
      ensures Separated(ts[p..r.pos])
    {
      DerivesSeparated(level, ts[p..r.pos], e);
    }
    if Separated(ts[p..r.pos]) {
      Soundness(Documented, ts, p, level);
    }
  }

  // f(1 1) without its comma.
  function MissingComma(f: Token, one: Token): seq<Token> {
    [f, Token(LPAREN, "("), one, one, Token(RPAREN, ")")]
  }

  // It is read as a call of two arguments, and the documented grammar derives no tree from it.
  lemma MissingCommaIsRead(f: Token, one: Token)
    requires Callable(f) && one.kind == NUMBER_LITERAL
    ensures ParseAt(MissingComma(f, one), 0, 0) == Got(Call(f, Upper(f.value), [Leaf(one), Leaf(one)]), 5)
    ensures forall e: Node :: !Derives(Documented, 0, MissingComma(f, one), e)
  {
    var ts := MissingComma(f, one);
    ReadWithoutComma(f, one);
    LadderRead(ts, 0, 7);
    forall e: Node
      ensures !Derives(Documented, 0, ts, e)
    {
      assert !Adjoins(ts[2], ts[3]);
      if Derives(Documented, 0, ts, e) {
        DerivesSeparated(0, ts, e);
      }
    }
  }

  lemma ReadWithoutComma(f: Token, one: Token)
    requires Callable(f) && one.kind == NUMBER_LITERAL
    ensures ParseAt(MissingComma(f, one), 0, 7) == Got(Call(f, Upper(f.value), [Leaf(one), Leaf(one)]), 5)
  {
    var ts := MissingComma(f, one);
    LeafRead(ts, 2);
    LeafRead(ts, 3);
    assert MoreArgs(ts, 4, [Leaf(one), Leaf(one)]) == GotArgs([Leaf(one), Leaf(one)], 5);
    assert [Leaf(one)] + [Leaf(one)] == [Leaf(one), Leaf(one)];
    assert MoreArgs(ts, 3, [Leaf(one)]) == GotArgs([Leaf(one), Leaf(one)], 5);
    assert ParseArgs(ts, 2) == GotArgs([Leaf(one), Leaf(one)], 5);
  }

  // A leaf with no operator and no parenthesis after it is read at the bottom of the ladder.
  lemma LeafRead(ts: seq<Token>, p: nat)
    requires p + 1 < |ts| && ts[p].kind == NUMBER_LITERAL
    requires OpLevel(ts[p + 1].kind) < 0
    ensures ParseAt(ts, p, 0) == Got(Leaf(ts[p]), p + 1)
  {
    assert ParseAt(ts, p, 7) == Got(Leaf(ts[p]), p + 1);
    LadderRead(ts, p, 7);
  }

  // A primary with no operator after it is read whole at the bottom of the ladder.
  lemma {:induction false} LadderRead(ts: seq<Token>, p: nat, level: Level)
    requires p < |ts| && ts[p].kind != MINUS && ts[p].kind != NOT && ParseAt(ts, p, level).Got?
    requires ParseAt(ts, p, level).pos < |ts| ==> OpLevel(ts[ParseAt(ts, p, level).pos].kind) < 0
    ensures ParseAt(ts, p, 0) == ParseAt(ts, p, level)
  {
    if level > 0 {
      var l: Level := level - 1;
      var r := ParseAt(ts, p, level);
      assert Fold(ts, r.pos, l, r.e) == Got(r.e, r.pos);
      LadderRead(ts, p, l);
    }
  }
}

/** The Impcore evaluator with local variables (impcore-with-locals/eval.c).

    Values are 32-bit integers. A variable is looked up in three separate
    scopes, locals first, then formals, then globals; functions live in a
    table of their own. A call gets fresh formal and local scopes (every local
    starting at 0) and shares the globals with its caller.

    A scope is a finite map: the C value environment is an association list
    searched front to back and updated in place at the first match, which
    behaves exactly like a map from each name to its first-listed value.
    Evaluation returns the value and the frame afterwards; a runtime error
    returns the globals as they stood, since runerror abandons the formal and
    local scopes and keeps only the (mutated in place) globals. */
module Impcore {
  import opened Results
  import opened Int32Arith
  import ErrorFacility

  type Name = string

  type Scope = map<Name, Int32>

  datatype ArithOp = Less | Greater | Equal | Plus | Minus | Times | Divide

  /** The primitives the initial function table holds. */
  datatype PrimOp = Print | Println | Printu | Arith(op: ArithOp)

  datatype Exp =
    | Literal(v: Int32)
    | Var(x: Name)
    | Set(setName: Name, rhs: Exp)
    | If(cond: Exp, truex: Exp, falsex: Exp)
    | While(guard: Exp, body: Exp)
    | Begin(es: seq<Exp>)
    | Apply(fname: Name, args: seq<Exp>)

  datatype Fun = UserDef(formals: seq<Name>, locals: seq<Name>, body: Exp) | Primitive(op: PrimOp)

  type FunEnv = map<Name, Fun>

  datatype Frame = Frame(globals: Scope, formals: Scope, locals: Scope)

  datatype Error =
    | UnboundVariable(x: Name)
    | SetUnbound(setName: Name)
    | UndefinedFunction(fname: Name)
    | WrongArgCount(argc: ErrorFacility.ArgcError)
    | ArithOverflow(op: ArithOp, left: Int32, right: Int32)
    | DivisionByZero
    | DuplicateFormal(formal: Name, inFunction: Name)
    | OutOfFuel

  datatype Outcome<T> = Done(val: T, frame: Frame) | Abort(err: Error, globals: Scope)

  /** The value of x in the first scope that binds it: locals, formals, globals. */
  function Lookup(x: Name, fr: Frame): Option<Int32> {
    if x in fr.locals then Some(fr.locals[x])
    else if x in fr.formals then Some(fr.formals[x])
    else if x in fr.globals then Some(fr.globals[x])
    else None
  }

  /** Overwrite x in the first scope that binds it; None when none does. */
  function Assign(x: Name, v: Int32, fr: Frame): Option<Frame> {
    if x in fr.locals then Some(fr.(locals := fr.locals[x := v]))
    else if x in fr.formals then Some(fr.(formals := fr.formals[x := v]))
    else if x in fr.globals then Some(fr.(globals := fr.globals[x := v]))
    else None
  }

  /** mkValenv: names paired with values; the first occurrence of a name is
      the one a lookup finds. */
  function MkScope(xs: seq<Name>, vs: seq<Int32>): Scope
    decreases |xs|
  {
    if xs == [] || vs == [] then map[]
    else MkScope(xs[1..], vs[1..])[xs[0] := vs[0]]
  }

  /** The value list the call builds for the locals: one 0 per declared local. */
  function Zeros(n: nat): (r: seq<Int32>)
    ensures |r| == n && forall i | 0 <= i < n :: r[i] == 0
  {
    if n == 0 then [] else [0] + Zeros(n - 1)
  }

  /** The mathematical result of a binary primitive, before any 32-bit check. */
  function ArithValue(op: ArithOp, v: Int32, w: Int32): int
    requires op == Divide ==> w != 0
  {
    match op
    case Less => if v < w then 1 else 0
    case Greater => if v > w then 1 else 0
    case Equal => if v == w then 1 else 0
    case Plus => v + w
    case Minus => v - w
    case Times => v * w
    case Divide => TruncDiv(v, w)
  }

  /** checkarith: the operation's mathematical result would leave the 32-bit
      range. A division by zero has no result to check. */
  predicate Overflows(op: ArithOp, v: Int32, w: Int32) {
    (op != Divide || w != 0) && !InInt32(ArithValue(op, v, w))
  }

  /** A primitive applied to evaluated arguments. */
  function ApplyPrim(op: PrimOp, vs: seq<Int32>): (r: Result<Int32, Error>)
    ensures (op.Print? || op.Println? || op.Printu?) ==>
              (r.Success? <==> |vs| == 1) && (r.Success? ==> r.value == vs[0])
    ensures op.Arith? && |vs| != 2 ==> r.Failure? && r.error.WrongArgCount?
    ensures op.Arith? && |vs| == 2 ==>
              var v, w := vs[0], vs[1];
              && (r.Success? <==> !Overflows(op.op, v, w) && (op.op == Divide ==> w != 0))
              && (r.Success? ==> r.value == ArithValue(op.op, v, w))
              && (Overflows(op.op, v, w) ==> r == Failure(ArithOverflow(op.op, v, w)))
              && (op.op == Divide && w == 0 ==> r == Failure(DivisionByZero))
  {
    match op
    case Print | Println | Printu =>
      (match ErrorFacility.CheckArgc(1, |vs|)
       case Some(a) => Failure(WrongArgCount(a))
       case None => Success(vs[0]))
    case Arith(a) =>
      match ErrorFacility.CheckArgc(2, |vs|)
      case Some(c) => Failure(WrongArgCount(c))
      case None =>
        var v, w := vs[0], vs[1];
        if Overflows(a, v, w) then Failure(ArithOverflow(a, v, w))
        else if a == Divide && w == 0 then Failure(DivisionByZero)
        else Success(ArithValue(a, v, w))
  }

  /** eval. */
  function Eval(fuel: nat, e: Exp, funs: FunEnv, fr: Frame): Outcome<Int32>
    decreases fuel, 0, 0
  {
    if fuel == 0 then Abort(OutOfFuel, fr.globals)
    else
      var f := fuel - 1;
      match e
      case Literal(v) => Done(v, fr)
      case Var(x) =>
        (match Lookup(x, fr)
         case None => Abort(UnboundVariable(x), fr.globals)
         case Some(v) => Done(v, fr))
      case Set(x, rhs) =>
        (match Eval(f, rhs, funs, fr)
         case Abort(err, g) => Abort(err, g)
         case Done(v, fr1) =>
           match Assign(x, v, fr1)
           case None => Abort(SetUnbound(x), fr1.globals)
           case Some(fr2) => Done(v, fr2))
      case If(c, t, el) =>
        (match Eval(f, c, funs, fr)
         case Abort(err, g) => Abort(err, g)
         case Done(v, fr1) => if v != 0 then Eval(f, t, funs, fr1) else Eval(f, el, funs, fr1))
      case While(c, body) => EvalWhile(f, c, body, funs, fr)
      case Begin(es) => EvalBegin(f, es, funs, fr, 0)
      case Apply(name, args) => EvalApply(f, name, args, funs, fr)
  }

  /** The while loop; each iteration costs one unit of fuel. */
  function EvalWhile(fuel: nat, c: Exp, body: Exp, funs: FunEnv, fr: Frame): Outcome<Int32>
    decreases fuel, 2, 0
  {
    if fuel == 0 then Abort(OutOfFuel, fr.globals)
    else
      match Eval(fuel, c, funs, fr)
      case Abort(err, g) => Abort(err, g)
      case Done(v, fr1) =>
        if v == 0 then Done(0, fr1)
        else
          match Eval(fuel, body, funs, fr1)
          case Abort(err, g) => Abort(err, g)
          case Done(_, fr2) => EvalWhile(fuel - 1, c, body, funs, fr2)
  }

  /** begin: the last value, `last` (initially 0) if there is none. */
  function EvalBegin(fuel: nat, es: seq<Exp>, funs: FunEnv, fr: Frame, last: Int32): Outcome<Int32>
    decreases fuel, 1, |es|
  {
    if es == [] then Done(last, fr)
    else
      match Eval(fuel, es[0], funs, fr)
      case Abort(err, g) => Abort(err, g)
      case Done(v, fr1) => EvalBegin(fuel, es[1..], funs, fr1, v)
  }

  /** evallist: left to right. */
  function EvalList(fuel: nat, es: seq<Exp>, funs: FunEnv, fr: Frame): Outcome<seq<Int32>>
    decreases fuel, 1, |es|
  {
    if es == [] then Done([], fr)
    else
      match Eval(fuel, es[0], funs, fr)
      case Abort(err, g) => Abort(err, g)
      case Done(v, fr1) =>
        match EvalList(fuel, es[1..], funs, fr1)
        case Abort(err, g) => Abort(err, g)
        case Done(vs, fr2) => Done([v] + vs, fr2)
  }

  /** The frame a user function's body runs in: the caller's globals, the
      formals bound to the actuals, every local bound to 0. */
  function CallFrame(globals: Scope, formals: seq<Name>, locals: seq<Name>, actuals: seq<Int32>): Frame {
    Frame(globals, MkScope(formals, actuals), MkScope(locals, Zeros(|locals|)))
  }

  /** A call: look the function up, evaluate the actuals, check the arity,
      then run the body (user function) or the primitive. After a user
      function returns, the caller continues with its own formals and locals
      and the globals the callee left. */
  function EvalApply(fuel: nat, name: Name, args: seq<Exp>, funs: FunEnv, fr: Frame): Outcome<Int32>
    decreases fuel, 2, 0
  {
    if name !in funs then Abort(UndefinedFunction(name), fr.globals)
    else
      match EvalList(fuel, args, funs, fr)
      case Abort(err, g) => Abort(err, g)
      case Done(vs, fr1) =>
        match funs[name]
        case UserDef(xs, ls, body) =>
          (match ErrorFacility.CheckArgc(|xs|, |vs|)
           case Some(a) => Abort(WrongArgCount(a), fr1.globals)
           case None =>
             match Eval(fuel, body, funs, CallFrame(fr1.globals, xs, ls, vs))
             case Abort(err, g) => Abort(err, g)
             case Done(v, fr2) => Done(v, fr1.(globals := fr2.globals)))
        case Primitive(op) =>
          match ApplyPrim(op, vs)
          case Failure(err) => Abort(err, fr1.globals)
          case Success(v) => Done(v, fr1)
  }

  /** Top-level definitions. */
  datatype Def =
    | Val(valName: Name, exp: Exp)
    | ExpDef(e: Exp)
    | Define(defName: Name, userfun: Fun)

  /** After a definition: the globals and function table, or the error and
      the globals as the error left them (the function table is unchanged by
      any failing definition). */
  datatype DefOutcome = Defined(globals: Scope, funs: FunEnv) | DefFailed(err: Error, failedGlobals: Scope)

  /** evaldef. A val or a bare expression is evaluated with empty formal and
      local scopes and its value bound in the globals (a bare expression's to
      `it`); a define is refused when a formal repeats. */
  function EvalDef(fuel: nat, d: Def, globals: Scope, funs: FunEnv): DefOutcome
    requires d.Define? ==> d.userfun.UserDef?
  {
    match d
    case Val(x, e) =>
      (match Eval(fuel, e, funs, Frame(globals, map[], map[]))
       case Abort(err, g) => DefFailed(err, g)
       case Done(v, fr) => Defined(fr.globals[x := v], funs))
    case ExpDef(e) =>
      (match Eval(fuel, e, funs, Frame(globals, map[], map[]))
       case Abort(err, g) => DefFailed(err, g)
       case Done(v, fr) => Defined(fr.globals["it" := v], funs))
    case Define(name, uf) =>
      match ErrorFacility.DuplicateName(uf.formals)
      case Some(x) => DefFailed(DuplicateFormal(x, name), globals)
      case None => Defined(globals, funs[name := uf])
  }
}

/** uScheme values, abstract syntax and environments (uscheme-trace/value.c
    and the data the evaluator works on). An environment is a chain of
    name-to-location bindings, innermost first; locations index a store that
    the evaluator threads through evaluation. */
module SchemeValue {
  import opened Results

  type Name = string

  /** A location in the store. */
  type Loc = nat

  /** Tags of primitive functions. The record desugaring names five of them;
      every other primitive, and the malformed placeholder `unspecified` can
      build, carries its numeric tag. */
  datatype PrimTag = ConsTag | CarTag | CdrTag | NullPTag | PairPTag | Code(n: int)

  datatype Value =
    | Nil
    | Bool(b: bool)
    | Num(n: int)
    | Sym(s: Name)
    | Pair(car: Value, cdr: Value)
    | Closure(lambda: Lambda, env: Env)
    | Primitive(tag: PrimTag)

  datatype Lambda = Lambda(formals: seq<Name>, body: Exp)

  datatype LetKind = Let | LetStar | LetRec

  datatype Exp =
    | Literal(v: Value)
    | Var(x: Name)
    | Set(setName: Name, rhs: Exp)
    | If(cond: Exp, truex: Exp, falsex: Exp)
    | While(guard: Exp, body: Exp)
    | Begin(es: seq<Exp>)
    | Apply(fn: Exp, args: seq<Exp>)
    | LetX(kind: LetKind, xs: seq<Name>, inits: seq<Exp>, letBody: Exp)
    | LambdaX(lam: Lambda)

  /** Top-level definitions, as far as the desugarings produce them. */
  datatype Def = Val(valName: Name, exp: Exp) | Define(defName: Name, defLambda: Lambda)

  datatype Binding = Binding(name: Name, loc: Loc)

  type Env = seq<Binding>

  const TrueV: Value := Bool(true)
  const FalseV: Value := Bool(false)

  /** istrue: the boolean false is the one false value; the number 0 and the
      empty list are true. */
  predicate IsTrue(v: Value)
    ensures IsTrue(v) <==> v != FalseV
  {
    !v.Bool? || v.b
  }

  /** The two globals initvalue sets up. */
  datatype Booleans = Booleans(truev: Value, falsev: Value)

  function InitValue(): (r: Booleans)
    ensures r.truev == Bool(true) && r.falsev == Bool(false)
    ensures IsTrue(r.truev) && !IsTrue(r.falsev)
  {
    Booleans(Bool(true), Bool(false))
  }

  const UnspecifiedSymbol: Name := "this value is unspecified"

  /** `(rand()>>4) & 0x3` for a value r returned by rand(): the arithmetic
      shift divides by 16 rounding down, and masking keeps the low two bits. */
  function Selector(r: int): int {
    (r / 16) % 4
  }

  /** unspecified: `first` is the rand() result the switch inspects, `second`
      the one case 1 wraps as a number. The nil default is kept as written. */
  function Unspecified(first: nat, second: nat): Value {
    match Selector(first)
    case 0 => TrueV
    case 1 => Num(second)
    case 2 => Sym(UnspecifiedSymbol)
    case 3 => Primitive(Code(-12))
    case _ => Nil
  }

  /** How many rand() results unspecified consumes: a second one exactly
      when the first selects the number case. */
  function UnspecifiedDraws(first: nat): (k: nat)
    ensures 1 <= k <= 2
    ensures forall second: nat :: k == 2 <==> Unspecified(first, second).Num?
  {
    if Selector(first) == 1 then 2 else 1
  }

  /** unspecified yields one of its four cases; the nil default is dead,
      because a value masked with 0x3 lies in 0..3. */
  lemma UnspecifiedCases(first: nat, second: nat)
    ensures 0 <= Selector(first) < 4
    ensures var v := Unspecified(first, second);
            v == TrueV || v == Num(second) || v == Sym(UnspecifiedSymbol)
            || v == Primitive(Code(-12))
    ensures Unspecified(first, second) != Nil
  {
  }

  /** Each of the four cases is reached by some rand() result. */
  lemma UnspecifiedReachesAllCases(second: nat)
    ensures Unspecified(0, second) == TrueV
    ensures Unspecified(16, second) == Num(second)
    ensures Unspecified(32, second) == Sym(UnspecifiedSymbol)
    ensures Unspecified(48, second) == Primitive(Code(-12))
  {
  }

  /** find: the location of the innermost binding of x. */
  function Find(x: Name, env: Env): (r: Option<Loc>)
    ensures r.None? <==> forall i | 0 <= i < |env| :: env[i].name != x
    ensures r.Some? ==> exists i | 0 <= i < |env| ::
              && env[i] == Binding(x, r.value)
              && forall j | 0 <= j < i :: env[j].name != x
  {
    if env == [] then None
    else if env[0].name == x then Some(env[0].loc)
    else
      var r := Find(x, env[1..]);
      assert forall i | 1 <= i < |env| :: env[i] == env[1..][i - 1];
      r
  }

  /** A nil-terminated chain of pairs holding vs in order. */
  function ListValue(vs: seq<Value>): Value {
    if vs == [] then Nil else Pair(vs[0], ListValue(vs[1..]))
  }
}

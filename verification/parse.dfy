/** Reading uScheme phrases (uscheme-trace/parse.c): what an atom means as an
    expression, what a parenthesized phrase means under `quote`, and the
    duplicate-name checks the parser runs on every expression and definition. */
module SchemeParse {
  import opened Results
  import opened Decimal
  import opened Int32Arith
  import opened SchemeValue
  import ErrorFacility

  /** A phrase as the reader delivers it: an atom or a parenthesized list. */
  datatype Par = Atom(name: Name) | List(items: seq<Par>)

  /** The syntax errors raised here, each standing for synerror's message
      without its source-location prefix. */
  datatype SyntaxError =
    | LiteralOverflow(atom: Name)
    | DotInQuote
    | DuplicateFormal(formal: Name, where: string)
    | DuplicateBound(bound: Name, where: string)

  /** exp_of_atom: #t and #f are boolean literals; an atom strtol reads
      completely is an integer literal, or a syntax error when its value does
      not fit in 32 bits; anything else is a variable. (The ERANGE disjunct of
      the range test is implied by the int32 bounds: a saturated strtol result
      is far outside them.) */
  function ExpOfAtom(n: Name): (r: Result<Exp, SyntaxError>)
    ensures r == Success(Literal(TrueV)) <==> n == "#t"
    ensures r == Success(Literal(FalseV)) <==> n == "#f"
    ensures r.Success? && r.value.Var? <==> n != "#t" && n != "#f" && WholeNumeral(n).None?
    ensures r.Success? && r.value.Var? ==> r.value.x == n
    ensures r.Failure? <==> WholeNumeral(n).Some? && !InInt32(WholeNumeral(n).value)
    ensures r.Failure? ==> r.error == LiteralOverflow(n)
    ensures r.Success? && r.value.Literal? && r.value.v.Num? ==>
              WholeNumeral(n) == Some(r.value.v.n) && InInt32(r.value.v.n)
  {
    if n == "#t" then Success(Literal(TrueV))
    else if n == "#f" then Success(Literal(FalseV))
    else
      match WholeNumeral(n)
      case None => Success(Var(n))
      case Some(v) =>
        var l := ClampLong(v);
        if !InInt32(l) then Failure(LiteralOverflow(n)) else Success(Literal(Num(l)))
  }

  /** Printing an int32 in decimal and reading the numeral back as an
      expression gives the same number as a literal. */
  lemma ExpOfAtomReadsNumerals(k: int)
    requires InInt32(k)
    ensures ExpOfAtom(IntToString(k)) == Success(Literal(Num(k)))
  {
    WholeNumeralOfIntToString(k);
  }

  /** A numeral whose value does not fit in 32 bits is rejected. */
  lemma ExpOfAtomRejectsWide(k: int)
    requires !InInt32(k)
    ensures ExpOfAtom(IntToString(k)) == Failure(LiteralOverflow(IntToString(k)))
  {
    WholeNumeralOfIntToString(k);
  }

  /** An atom under quote, as parsesx converts it: a complete numeral becomes
      a number by strtol's saturation and the implicit narrowing of mkNum's
      long argument to int32, with no range check; then #t, #f, the rejected
      ".", and otherwise a symbol. */
  function SxOfAtomAsWritten(n: Name): (r: Result<Value, SyntaxError>)
    ensures r.Failure? <==> n == "."
    ensures r.Success? && r.value.Num? <==> WholeNumeral(n).Some?
    ensures r.Success? && r.value.Num? ==>
              InInt32(r.value.n) && r.value.n == WrapInt32(ClampLong(WholeNumeral(n).value))
    ensures r.Success? && r.value.Sym? <==> WholeNumeral(n).None? && n !in {"#t", "#f", "."}
    ensures r.Success? && r.value.Sym? ==> r.value.s == n
  {
    match WholeNumeral(n)
    case Some(v) => Success(Num(WrapInt32(ClampLong(v))))
    case None => NonNumericAtom(n)
  }

  /** The same conversion with the range check exp_of_atom applies to
      numerals outside quote. */
  function SxOfAtom(n: Name): (r: Result<Value, SyntaxError>)
    ensures r.Failure? <==> n == "." || (WholeNumeral(n).Some? && !InInt32(WholeNumeral(n).value))
    ensures r.Success? && r.value.Num? <==> WholeNumeral(n).Some? && InInt32(WholeNumeral(n).value)
    ensures r.Success? && r.value.Num? ==> r.value.n == WholeNumeral(n).value
    ensures r.Success? && r.value.Sym? <==> WholeNumeral(n).None? && n !in {"#t", "#f", "."}
  {
    match WholeNumeral(n)
    case Some(v) => if InInt32(v) then Success(Num(v)) else Failure(LiteralOverflow(n))
    case None => NonNumericAtom(n)
  }

  /** An atom strtol does not read completely. */
  function NonNumericAtom(n: Name): (r: Result<Value, SyntaxError>)
    ensures r.Failure? <==> n == "."
    ensures r.Success? ==> r.value == (if n == "#t" then TrueV else if n == "#f" then FalseV else Sym(n))
  {
    if n == "#t" then Success(TrueV)
    else if n == "#f" then Success(FalseV)
    else if n == "." then Failure(DotInQuote)
    else Success(Sym(n))
  }

  /** parsesx as written: a list becomes a chain of pairs, first element first. */
  function ParseSxAsWritten(p: Par): (r: Result<Value, SyntaxError>)
    decreases p, 1
  {
    match p
    case Atom(n) => SxOfAtomAsWritten(n)
    case List(ps) => ParseItemsAsWritten(ps)
  }

  function ParseItemsAsWritten(ps: seq<Par>): (r: Result<Value, SyntaxError>)
    ensures ps == [] ==> r == Success(Nil)
    ensures r.Success? <==> forall i | 0 <= i < |ps| :: ParseSxAsWritten(ps[i]).Success?
    ensures r.Success? ==>
              r.value == ListValue(seq(|ps|, i requires 0 <= i < |ps| => ParseSxAsWritten(ps[i]).value))
    ensures r.Failure? ==>
              exists i | 0 <= i < |ps| ::
                && ParseSxAsWritten(ps[i]) == Failure(r.error)
                && forall j | 0 <= j < i :: ParseSxAsWritten(ps[j]).Success?
    decreases ps, 0
  {
    if ps == [] then Success(Nil)
    else
      match ParseSxAsWritten(ps[0])
      case Failure(e) => Failure(e)
      case Success(a) =>
        match ParseItemsAsWritten(ps[1..])
        case Failure(e) => Failure(e)
        case Success(d) =>
          assert seq(|ps|, i requires 0 <= i < |ps| => ParseSxAsWritten(ps[i]).value)[1..]
              == seq(|ps[1..]|, i requires 0 <= i < |ps[1..]| => ParseSxAsWritten(ps[1..][i]).value);
          Success(Pair(a, d))
  }

  /** parsesx with the range check: the definition the rest of the model uses. */
  function ParseSx(p: Par): (r: Result<Value, SyntaxError>)
    decreases p, 1
  {
    match p
    case Atom(n) => SxOfAtom(n)
    case List(ps) => ParseItems(ps)
  }

  function ParseItems(ps: seq<Par>): (r: Result<Value, SyntaxError>)
    ensures ps == [] ==> r == Success(Nil)
    ensures r.Success? <==> forall i | 0 <= i < |ps| :: ParseSx(ps[i]).Success?
    ensures r.Success? ==>
              r.value == ListValue(seq(|ps|, i requires 0 <= i < |ps| => ParseSx(ps[i]).value))
    ensures r.Failure? ==>
              exists i | 0 <= i < |ps| ::
                && ParseSx(ps[i]) == Failure(r.error)
                && forall j | 0 <= j < i :: ParseSx(ps[j]).Success?
    decreases ps, 0
  {
    if ps == [] then Success(Nil)
    else
      match ParseSx(ps[0])
      case Failure(e) => Failure(e)
      case Success(a) =>
        match ParseItems(ps[1..])
        case Failure(e) => Failure(e)
        case Success(d) =>
          assert seq(|ps|, i requires 0 <= i < |ps| => ParseSx(ps[i]).value)[1..]
              == seq(|ps[1..]|, i requires 0 <= i < |ps[1..]| => ParseSx(ps[1..][i]).value);
          Success(Pair(a, d))
  }

  /** The literal `(quote 4294967296)`: as written, parsesx turns 2^32 into
      the number 0, while the same numeral outside quote is rejected. */
  lemma QuotedWideNumeralWraps()
    ensures SxOfAtomAsWritten("4294967296") == Success(Num(0))
    ensures ExpOfAtom("4294967296") == Failure(LiteralOverflow("4294967296"))
    ensures SxOfAtom("4294967296") == Failure(LiteralOverflow("4294967296"))
  {
    WideNumeralValue();
    assert WholeNumeral("4294967296") == Some(4294967296);
  }

  /** The digits of 2^32, read one at a time. */
  lemma WideNumeralValue()
    ensures AllDigits("4294967296") && DigitsValue("4294967296") == 4294967296
  {
    var s0 := "4";
    assert DigitsValue(s0) == 4 by { assert s0[..0] == []; }
    var s1 := s0 + ['2'];
    DigitsSnoc(s0, '2');
    var s2 := s1 + ['9'];
    DigitsSnoc(s1, '9');
    var s3 := s2 + ['4'];
    DigitsSnoc(s2, '4');
    var s4 := s3 + ['9'];
    DigitsSnoc(s3, '9');
    var s5 := s4 + ['6'];
    DigitsSnoc(s4, '6');
    var s6 := s5 + ['7'];
    DigitsSnoc(s5, '7');
    var s7 := s6 + ['2'];
    DigitsSnoc(s6, '2');
    var s8 := s7 + ['9'];
    DigitsSnoc(s7, '9');
    var s9 := s8 + ['6'];
    DigitsSnoc(s8, '6');
    assert s9 == "4294967296";
  }

  /** One more digit on the right: ten times the value, plus the digit. */
  lemma DigitsSnoc(s: string, c: char)
    requires AllDigits(s) && IsDigit(c)
    ensures AllDigits(s + [c]) && DigitsValue(s + [c]) == DigitsValue(s) * 10 + DigitValue(c)
  {
    assert (s + [c])[..|s|] == s;
  }

  /** Every atom in the phrase is either not a complete numeral or one whose
      value fits in 32 bits. */
  predicate NumeralsInRange(p: Par)
    decreases p, 1
  {
    match p
    case Atom(n) => WholeNumeral(n).Some? ==> InInt32(WholeNumeral(n).value)
    case List(ps) => ItemsInRange(ps)
  }

  predicate ItemsInRange(ps: seq<Par>)
    decreases ps, 0
  {
    ps == [] || (NumeralsInRange(ps[0]) && ItemsInRange(ps[1..]))
  }

  /** The corrected reader differs from the one as written only on numerals
      out of range: elsewhere the two agree. */
  lemma {:induction false} ParseSxAgreesInRange(p: Par)
    requires NumeralsInRange(p)
    ensures ParseSx(p) == ParseSxAsWritten(p)
    decreases p, 1
  {
    match p
    case Atom(n) =>
    case List(ps) => ItemsAgreeInRange(ps);
  }

  lemma {:induction false} ItemsAgreeInRange(ps: seq<Par>)
    requires ItemsInRange(ps)
    ensures ParseItems(ps) == ParseItemsAsWritten(ps)
    decreases ps, 0
  {
    if ps != [] {
      ParseSxAgreesInRange(ps[0]);
      ItemsAgreeInRange(ps[1..]);
    }
  }

  /** A symbol the reader gives back unchanged: not a numeral, not #t, #f or
      ".", and an atom (non-empty, without parentheses or white space). */
  predicate PlainSymbol(s: Name) {
    && s != []
    && WholeNumeral(s).None?
    && s !in {"#t", "#f", "."}
    && forall i | 0 <= i < |s| :: s[i] !in {'(', ')', '[', ']', ';'} && !IsSpace(s[i])
  }

  /** The values a quoted phrase can denote: nil, booleans, int32 numbers,
      plain symbols, and nil-terminated lists of these. */
  predicate Readable(v: Value) {
    match v
    case Nil => true
    case Bool(_) => true
    case Num(n) => InInt32(n)
    case Sym(s) => PlainSymbol(s)
    case Pair(a, d) => Readable(a) && Readable(d) && (d.Nil? || d.Pair?)
    case _ => false
  }

  /** The phrase that writes a readable value: a list for nil and pairs. */
  function Show(v: Value): (p: Par)
    requires Readable(v)
    ensures v.Nil? || v.Pair? <==> p.List?
  {
    match v
    case Nil => List([])
    case Bool(b) => Atom(if b then "#t" else "#f")
    case Num(n) => Atom(IntToString(n))
    case Sym(s) => Atom(s)
    case Pair(a, d) => List([Show(a)] + Show(d).items)
  }

  /** Reading back the phrase that writes a value gives the value. */
  lemma {:induction false} ParseSxShow(v: Value)
    requires Readable(v)
    ensures ParseSx(Show(v)) == Success(v)
  {
    match v
    case Nil =>
    case Bool(b) =>
      WholeNumeralFirstCharIsNotHash(if b then "#t" else "#f");
    case Num(n) =>
      WholeNumeralOfIntToString(n);
    case Sym(s) =>
    case Pair(a, d) =>
      ParseSxShow(a);
      ParseSxShow(d);
      var items := [Show(a)] + Show(d).items;
      assert items[0] == Show(a) && items[1..] == Show(d).items;
      assert List(items[1..]) == Show(d);
  }

  /** A readable value is written without any numeral out of range. */
  lemma {:induction false} ShowInRange(v: Value)
    requires Readable(v)
    ensures NumeralsInRange(Show(v))
  {
    match v
    case Nil =>
    case Bool(b) =>
      WholeNumeralFirstCharIsNotHash(if b then "#t" else "#f");
    case Num(n) =>
      WholeNumeralOfIntToString(n);
    case Sym(s) =>
    case Pair(a, d) =>
      ShowInRange(a);
      ShowInRange(d);
      var items := [Show(a)] + Show(d).items;
      assert items[0] == Show(a) && items[1..] == Show(d).items;
  }

  /** The round trip holds for parsesx as written too: what Show writes
      never reaches the missing range check. */
  lemma ParseSxAsWrittenShow(v: Value)
    requires Readable(v)
    ensures ParseSxAsWritten(Show(v)) == Success(v)
  {
    ShowInRange(v);
    ParseSxAgreesInRange(Show(v));
    ParseSxShow(v);
  }

  lemma WholeNumeralFirstCharIsNotHash(s: string)
    requires s != [] && s[0] == '#'
    ensures WholeNumeral(s).None?
  {
    if WholeNumeral(s).Some? {
      WholeNumeralFirstChar(s);
    }
  }

  /** The innermost construct-level duplicate checks on an expression:
      lambda formals, and the names bound by let and letrec (let* may rebind
      a name). */
  function CheckExpDuplicates(e: Exp): (r: Option<SyntaxError>)
    ensures r.None? <==>
      && (e.LambdaX? ==> ErrorFacility.Distinct(e.lam.formals))
      && (e.LetX? && e.kind != LetStar ==> ErrorFacility.Distinct(e.xs))
    ensures r.Some? && e.LambdaX? ==>
      && r.value.DuplicateFormal? && r.value.where == "lambda"
      && ErrorFacility.DuplicateName(e.lam.formals) == Some(r.value.formal)
    ensures r.Some? && e.LetX? ==>
      && r.value.DuplicateBound? && r.value.where == (if e.kind == Let then "let" else "letrec")
      && ErrorFacility.DuplicateName(e.xs) == Some(r.value.bound)
  {
    ErrorFacility.DuplicateNameNoneIffDistinct(if e.LambdaX? then e.lam.formals else if e.LetX? then e.xs else []);
    match e
    case LambdaX(lam) =>
      (match ErrorFacility.DuplicateName(lam.formals)
       case Some(d) => Some(DuplicateFormal(d, "lambda"))
       case None => None)
    case LetX(kind, xs, _, _) =>
      if kind == LetStar then None
      else
        (match ErrorFacility.DuplicateName(xs)
         case Some(d) => Some(DuplicateBound(d, if kind == Let then "let" else "letrec"))
         case None => None)
    case _ => None
  }

  /** The same check for define's formal parameters. */
  function CheckDefDuplicates(d: Def): (r: Option<SyntaxError>)
    ensures r.None? <==> (d.Define? ==> ErrorFacility.Distinct(d.defLambda.formals))
    ensures r.Some? ==>
      && d.Define? && r.value.DuplicateFormal? && r.value.where == "define"
      && ErrorFacility.DuplicateName(d.defLambda.formals) == Some(r.value.formal)
  {
    ErrorFacility.DuplicateNameNoneIffDistinct(if d.Define? then d.defLambda.formals else []);
    match d
    case Define(_, lam) =>
      (match ErrorFacility.DuplicateName(lam.formals)
       case Some(n) => Some(DuplicateFormal(n, "define"))
       case None => None)
    case Val(_, _) => None
  }

  /** namecat: the name spelled by n1 followed by n2. */
  function Namecat(n1: Name, n2: Name): (r: Name)
    ensures |r| == |n1| + |n2| && r[..|n1|] == n1 && r[|n1|..] == n2
  {
    n1 + n2
  }

  /** Names with a common prefix are equal only when their rests are. */
  lemma NamecatCancelsPrefix(p: Name, a: Name, b: Name)
    ensures Namecat(p, a) == Namecat(p, b) <==> a == b
  {
    if Namecat(p, a) == Namecat(p, b) {
      assert a == Namecat(p, a)[|p|..];
    }
  }

  /** Names with a common suffix are equal only when their starts are. */
  lemma NamecatCancelsSuffix(a: Name, b: Name, s: Name)
    ensures Namecat(a, s) == Namecat(b, s) <==> a == b
  {
    if Namecat(a, s) == Namecat(b, s) {
      assert |a| == |b|;
      assert a == Namecat(a, s)[..|a|];
    }
  }
}

/** The record desugaring of uscheme-trace/parse.c: `(record R (f1 ... fn))`
    becomes a constructor make-R, a type predicate R? and one accessor R-fi
    per field. A record value is the list (make-R v1 ... vn). */
module RecordSugar {
  import opened Results
  import opened SchemeValue
  import opened SchemeParse
  import opened SchemeDesugar
  import ErrorFacility

  /** Calls of the primitives the desugaring uses, with the primitive itself
      as a literal operator (so no global name can capture it). */
  function ConsExp(car: Exp, cdr: Exp): Exp {
    Apply(Literal(Primitive(ConsTag)), [car, cdr])
  }

  function CarExp(e: Exp): Exp {
    Apply(Literal(Primitive(CarTag)), [e])
  }

  function CdrExp(e: Exp): Exp {
    Apply(Literal(Primitive(CdrTag)), [e])
  }

  function NullPExp(e: Exp): Exp {
    Apply(Literal(Primitive(NullPTag)), [e])
  }

  function PairPExp(e: Exp): Exp {
    Apply(Literal(Primitive(PairPTag)), [e])
  }

  /** and_also: q only when p holds, #f otherwise. */
  function AndAlso(p: Exp, q: Exp): Exp {
    If(p, q, Literal(Bool(false)))
  }

  /** cdrs: n applications of cdr, the outermost applied last. */
  function Cdrs(n: nat, e: Exp): Exp {
    if n == 0 then e else CdrExp(Cdrs(n - 1, e))
  }

  /** varlist: code that builds the list of the named variables' values. */
  function VarList(names: seq<Name>): Exp {
    if names == [] then Literal(Nil) else ConsExp(Var(names[0]), VarList(names[1..]))
  }

  /** prefix_the: the constructor's parameter names, "the-f" for each field f. */
  function PrefixThe(names: seq<Name>): (r: seq<Name>)
    ensures |r| == |names| && forall i | 0 <= i < |names| :: r[i] == Namecat("the-", names[i])
  {
    if names == [] then [] else [Namecat("the-", names[0])] + PrefixThe(names[1..])
  }

  /** Distinct field names give distinct constructor parameters. */
  lemma PrefixTheDistinct(names: seq<Name>)
    requires ErrorFacility.Distinct(names)
    ensures ErrorFacility.Distinct(PrefixThe(names))
  {
    forall i, j | 0 <= i < j < |names|
      ensures PrefixThe(names)[i] != PrefixThe(names)[j]
    {
      NamecatCancelsPrefix("the-", names[i], names[j]);
    }
  }

  function ConstructorName(rec: Name): Name {
    Namecat("make-", rec)
  }

  function PredicateName(rec: Name): Name {
    Namecat(rec, "?")
  }

  function AccessorName(rec: Name, field: Name): Name {
    Namecat(rec, Namecat("-", field))
  }

  /** recordConstructor: make-R takes the-f1 ... the-fn and returns the list
      whose head is the symbol make-R and whose rest is the arguments. */
  function RecordConstructor(rec: Name, fields: seq<Name>): Def {
    var argnames := PrefixThe(fields);
    Define(ConstructorName(rec),
           Lambda(argnames, ConsExp(Literal(Sym(ConstructorName(rec))), VarList(argnames))))
  }

  /** goodRecordCdr: code testing that the value of `e` is a list of exactly
      as many elements as there are field names. */
  function GoodRecordCdr(e: Exp, fields: seq<Name>): Exp
    decreases |fields|
  {
    if fields == [] then NullPExp(e)
    else AndAlso(PairPExp(e), GoodRecordCdr(CdrExp(e), fields[1..]))
  }

  /** The run-time error recordPredicate raises for a record named pair. */
  datatype RecordError = PairIsCaptured

  /** recordPredicate: R? tests for a pair whose car is the symbol make-R
      (compared with the global `=`) and whose cdr has one element per field. */
  function RecordPredicate(rec: Name, fields: seq<Name>): (r: Result<Def, RecordError>)
    ensures r.Failure? <==> rec == "pair"
  {
    if rec == "pair" then Failure(PairIsCaptured)
    else
      var goodCar := Apply(Var("="), [CarExp(Var("r")), Literal(Sym(ConstructorName(rec)))]);
      var body := AndAlso(PairPExp(Var("r")), AndAlso(goodCar, GoodRecordCdr(CdrExp(Var("r")), fields)));
      Success(Define(PredicateName(rec), Lambda(["r"], body)))
  }

  /** The list value of the error message an accessor passes to `error`. */
  function NotARecordMessage(rec: Name, accessor: Name): Exp {
    ConsExp(Literal(Sym("value-passed-to")),
      ConsExp(Literal(Sym(accessor)),
        ConsExp(Literal(Sym("is-not-a")),
          ConsExp(Literal(Sym(rec)), Literal(Nil)))))
  }

  /** The accessor of a field with `preceding` fields before it: if R? holds
      of the argument, the car of its (preceding+1)-th cdr; otherwise a call
      of `error`. */
  function Accessor(rec: Name, preceding: nat, field: Name): Def {
    var accessor := AccessorName(rec, field);
    var fieldexp := CarExp(Cdrs(preceding + 1, Var("r")));
    var body := If(Apply(Var(PredicateName(rec)), [Var("r")]), fieldexp,
                   ErrorExp(NotARecordMessage(rec, accessor)));
    Define(accessor, Lambda(["r"], body))
  }

  /** recordAccessors: one accessor per field, in field order. */
  function RecordAccessors(rec: Name, preceding: nat, fields: seq<Name>): (r: seq<Def>)
    ensures |r| == |fields|
    ensures forall i | 0 <= i < |fields| :: r[i] == Accessor(rec, preceding + i, fields[i])
    decreases |fields|
  {
    if fields == [] then []
    else [Accessor(rec, preceding, fields[0])] + RecordAccessors(rec, preceding + 1, fields[1..])
  }

  /** desugarRecord: constructor, predicate, then the accessors; the whole
      definition fails when the record is called pair. */
  function DesugarRecord(rec: Name, fields: seq<Name>): Result<seq<Def>, RecordError> {
    match RecordPredicate(rec, fields)
    case Failure(e) => Failure(e)
    case Success(pred) => Success([RecordConstructor(rec, fields), pred] + RecordAccessors(rec, 0, fields))
  }

  /** What desugarRecord defines: make-R, R?, and R-f for each field f in
      order, each a one-parameter function except make-R, which takes one
      parameter per field; nothing at all for a record called pair. */
  lemma DesugarRecordDefines(rec: Name, fields: seq<Name>)
    ensures var r := DesugarRecord(rec, fields);
            && (r.Failure? <==> rec == "pair")
            && (r.Success? ==>
                  && |r.value| == |fields| + 2
                  && (forall i | 0 <= i < |r.value| :: r.value[i].Define?)
                  && r.value[0].defName == "make-" + rec
                  && |r.value[0].defLambda.formals| == |fields|
                  && r.value[1].defName == rec + "?"
                  && r.value[1].defLambda.formals == ["r"]
                  && forall i | 0 <= i < |fields| ::
                       && r.value[i + 2].defName == rec + "-" + fields[i]
                       && r.value[i + 2].defLambda.formals == ["r"])
  {
    if rec != "pair" {
      var defs := DesugarRecord(rec, fields).value;
      RecordHead(rec, fields);
      RecordAccessorDefs(rec, fields);
      assert forall i | 0 <= i < |defs| :: defs[i].Define? by {
        assert defs[0].Define? && defs[1].Define?;
      }
    }
  }

  /** The first two definitions: make-R over the prefixed fields, then R?. */
  lemma RecordHead(rec: Name, fields: seq<Name>)
    requires rec != "pair"
    ensures var defs := DesugarRecord(rec, fields).value;
            && |defs| == |fields| + 2
            && defs[0] == RecordConstructor(rec, fields)
            && defs[0].defName == "make-" + rec && |defs[0].defLambda.formals| == |fields|
            && defs[1].Define? && defs[1].defName == rec + "?" && defs[1].defLambda.formals == ["r"]
  {
  }

  /** Definitions 2 .. n+1 are the accessors, in field order. */
  lemma RecordAccessorDefs(rec: Name, fields: seq<Name>)
    requires rec != "pair"
    ensures var defs := DesugarRecord(rec, fields).value;
            && |defs| == |fields| + 2
            && forall i | 0 <= i < |fields| ::
                 && defs[i + 2] == Accessor(rec, i, fields[i])
                 && defs[i + 2].defName == rec + "-" + fields[i]
                 && defs[i + 2].defLambda.formals == ["r"]
  {
    var defs := DesugarRecord(rec, fields).value;
    forall i | 0 <= i < |fields|
      ensures defs[i + 2] == Accessor(rec, i, fields[i])
      ensures defs[i + 2].defName == rec + "-" + fields[i]
    {
      assert defs[i + 2] == RecordAccessors(rec, 0, fields)[i];
      AccessorNameSpelled(rec, fields[i]);
    }
  }

  /** The accessor's name is the record name, a hyphen and the field name. */
  lemma AccessorNameSpelled(rec: Name, field: Name)
    ensures AccessorName(rec, field) == rec + "-" + field
  {
    assert rec + "-" + field == rec + ("-" + field);
  }

  /** The i-th accessor reads the car of the (i+1)-th cdr: the record's tag
      comes first, so field i sits at list position i + 1. */
  lemma AccessorReadsPosition(rec: Name, fields: seq<Name>, i: int)
    requires rec != "pair" && 0 <= i < |fields|
    ensures var body := DesugarRecord(rec, fields).value[i + 2].defLambda.body;
            body.If? && body.truex == CarExp(Cdrs(i + 1, Var("r")))
            && body.cond == Apply(Var(rec + "?"), [Var("r")])
  {
    var defs := DesugarRecord(rec, fields).value;
    assert defs[i + 2] == RecordAccessors(rec, 0, fields)[i];
  }

  /** Distinct field names give distinct accessor names. */
  lemma AccessorNamesDistinct(rec: Name, fields: seq<Name>)
    requires ErrorFacility.Distinct(fields)
    ensures ErrorFacility.Distinct(seq(|fields|, i requires 0 <= i < |fields| => AccessorName(rec, fields[i])))
  {
    forall i, j | 0 <= i < j < |fields|
      ensures AccessorName(rec, fields[i]) != AccessorName(rec, fields[j])
    {
      NamecatCancelsPrefix(rec, Namecat("-", fields[i]), Namecat("-", fields[j]));
      NamecatCancelsPrefix("-", fields[i], fields[j]);
    }
  }
}

/** The submission controller of the address form: the four field slots, the
    two input handlers that rewrite a slot in place, and the submit handler
    that runs every validator, collects the failures in field order and picks
    the notification shown to the user.
 */
module Submission {
  import opened JsString
  import opened Validation
  import opened Formatting

  datatype Field = Cep | Logradouro | Numero | Uf

  /** The fixed order of evaluation and of the error report. */
  const FieldOrder: seq<Field> := [Cep, Logradouro, Numero, Uf]

  function Position(f: Field): nat {
    match f
    case Cep => 0
    case Logradouro => 1
    case Numero => 2
    case Uf => 3
  }

  /** The start of each field's line in the error report: its label and a
      colon. */
  function LinePrefix(f: Field): string {
    match f
    case Cep => "CEP: "
    case Logradouro => "Logradouro: "
    case Numero => "Número: "
    case Uf => "UF: "
  }

  /** The four field values at the moment of a submit. */
  datatype Snapshot = Snapshot(cep: string, logradouro: string, numero: string, uf: string)

  /** The validator the submit handler runs for a field, on the value it
      passes: street and number are trimmed first, CEP and UF are not. */
  function Check(f: Field, v: Snapshot): Outcome {
    match f
    case Cep => ValidarCEP(v.cep)
    case Logradouro => ValidarLogradouro(Trim(v.logradouro))
    case Numero => ValidarNumero(Trim(v.numero))
    case Uf => ValidarUF(v.uf)
  }

  /** The four validator outcomes of one submit, one per field. */
  datatype Verdicts = Verdicts(cep: Outcome, logradouro: Outcome, numero: Outcome, uf: Outcome)

  function Verdict(f: Field, o: Verdicts): Outcome {
    match f
    case Cep => o.cep
    case Logradouro => o.logradouro
    case Numero => o.numero
    case Uf => o.uf
  }

  /** The outcomes the submit handler computes for a snapshot. */
  function Checks(v: Snapshot): Verdicts {
    Verdicts(Check(Cep, v), Check(Logradouro, v), Check(Numero, v), Check(Uf, v))
  }

  lemma VerdictOfChecks(v: Snapshot)
    ensures forall f: Field :: Verdict(f, Checks(v)) == Check(f, v)
  {
    var o := Checks(v);
    assert o.cep == Check(Cep, v) && o.logradouro == Check(Logradouro, v);
    assert o.numero == Check(Numero, v) && o.uf == Check(Uf, v);
  }

  datatype Failure = Failure(field: Field, error: Error)

  /** The failure a field contributes, if any. */
  function FailureOf(f: Field, o: Verdicts): seq<Failure> {
    match Verdict(f, o)
    case Valid => []
    case Invalid(m) => [Failure(f, m)]
  }

  /** The failures among `fields`, in their order. */
  function FailuresAmong(fields: seq<Field>, o: Verdicts): seq<Failure> {
    if fields == [] then [] else FailureOf(fields[0], o) + FailuresAmong(fields[1..], o)
  }

  datatype SubmissionResult = Accepted | Rejected(failures: seq<Failure>)

  /** The decision over the four outcomes: accepted when nothing failed,
      otherwise the failures in form order. */
  function Collect(o: Verdicts): SubmissionResult {
    var fs := FailuresAmong(FieldOrder, o);
    if fs == [] then Accepted else Rejected(fs)
  }

  /** The outcome of one submit attempt on a snapshot. */
  function Evaluate(v: Snapshot): SubmissionResult {
    Collect(Checks(v))
  }

  /** One line of the error report: `"<Label>: " + message + "\n"`. */
  function ErrorLine(x: Failure): string {
    LinePrefix(x.field) + Message(x.error) + "\n"
  }

  /** The accumulated `errorMessage`: the lines of the failures, in order. */
  function ErrorText(fs: seq<Failure>): string {
    if fs == [] then [] else ErrorLine(fs[0]) + ErrorText(fs[1..])
  }

  const SuccessText := "Endereço cadastrado com sucesso"
  const ErrorsHeader := "Erros no formulário:\n"

  /** The text of the alert a submit attempt raises. */
  function Notification(r: SubmissionResult): string {
    match r
    case Accepted => SuccessText
    case Rejected(fs) => ErrorsHeader + ErrorText(fs)
  }

  predicate StrictlyOrdered(fields: seq<Field>) {
    forall i, j :: 0 <= i < j < |fields| ==> Position(fields[i]) < Position(fields[j])
  }

  function FieldsOf(fs: seq<Failure>): (r: seq<Field>)
    ensures |r| == |fs| && forall i :: 0 <= i < |fs| ==> r[i] == fs[i].field
  {
    if fs == [] then [] else [fs[0].field] + FieldsOf(fs[1..])
  }

  /** The failures among `fields` are exactly the fields among them whose
      outcome is a failure, each carrying that outcome's message. */
  lemma {:induction false} FailuresAmongMembers(fields: seq<Field>, o: Verdicts)
    ensures forall x :: x in FailuresAmong(fields, o) <==>
      x.field in fields && Verdict(x.field, o) == Invalid(x.error)
  {
    if fields != [] {
      var rest := fields[1..];
      FailuresAmongMembers(rest, o);
      assert FailuresAmong(fields, o) == FailureOf(fields[0], o) + FailuresAmong(rest, o);
      assert forall f :: f in fields <==> f == fields[0] || f in rest;
    }
  }

  lemma OrderedTail(fields: seq<Field>)
    requires StrictlyOrdered(fields) && fields != []
    ensures StrictlyOrdered(fields[1..])
    ensures forall f :: f in fields[1..] ==> Position(fields[0]) < Position(f)
  {
    var rest := fields[1..];
    forall i, j | 0 <= i < j < |rest| ensures Position(rest[i]) < Position(rest[j]) {
      assert rest[i] == fields[i + 1] && rest[j] == fields[j + 1];
    }
    forall f | f in rest ensures Position(fields[0]) < Position(f) {
      var j :| 0 <= j < |rest| && rest[j] == f;
      assert fields[j + 1] == f;
    }
  }

  lemma OrderedCons(a: Field, t: seq<Field>)
    requires StrictlyOrdered(t) && forall j :: 0 <= j < |t| ==> Position(a) < Position(t[j])
    ensures StrictlyOrdered([a] + t)
  {
    var s := [a] + t;
    forall i, j | 0 <= i < j < |s| ensures Position(s[i]) < Position(s[j]) {
      assert s[j] == t[j - 1];
      if i > 0 {
        assert s[i] == t[i - 1];
      }
    }
  }

  /** Over fields taken in order, the failures come in the same order. */
  lemma {:induction false} FailuresAmongOrdered(fields: seq<Field>, o: Verdicts)
    requires StrictlyOrdered(fields)
    ensures StrictlyOrdered(FieldsOf(FailuresAmong(fields, o)))
  {
    if fields != [] {
      var rest := fields[1..];
      OrderedTail(fields);
      FailuresAmongOrdered(rest, o);
      var head, tail := FailureOf(fields[0], o), FailuresAmong(rest, o);
      var all := head + tail;
      assert FailuresAmong(fields, o) == all;
      if head == [] {
        assert all == tail;
      } else {
        FailuresAmongMembers(rest, o);
        var ft := FieldsOf(tail);
        forall j | 0 <= j < |ft| ensures Position(fields[0]) < Position(ft[j]) {
          assert tail[j] in tail;
        }
        OrderedCons(fields[0], ft);
        assert all[1..] == tail;
        assert FieldsOf(all) == [fields[0]] + ft;
      }
    }
  }

  lemma EveryFieldInOrder()
    ensures forall f: Field :: f in FieldOrder
  {
    forall f: Field ensures f in FieldOrder {
      assert FieldOrder[Position(f)] == f;
    }
  }

  /** The decision accepts exactly when all four outcomes pass. */
  lemma CollectAcceptedIff(o: Verdicts)
    ensures Collect(o) == Accepted <==> forall f: Field :: Verdict(f, o) == Valid
  {
    FailuresAmongMembers(FieldOrder, o);
    EveryFieldInOrder();
    var fs := FailuresAmong(FieldOrder, o);
    if fs != [] {
      assert fs[0] in fs;
      assert Failure(fs[0].field, fs[0].error) == fs[0];
    }
    if exists f: Field :: Verdict(f, o) != Valid {
      var f: Field :| Verdict(f, o) != Valid;
      assert Failure(f, Verdict(f, o).error) in fs;
    }
  }

  /** A submit is accepted exactly when every one of the four validators
      passes. */
  lemma AcceptedIffAllValid(v: Snapshot)
    ensures Evaluate(v) == Accepted <==> forall f: Field :: Check(f, v) == Valid
  {
    CollectAcceptedIff(Checks(v));
    VerdictOfChecks(v);
  }

  /** A rejection lists exactly the failing outcomes with their messages, at
      most once each and in form order. */
  lemma CollectRejected(o: Verdicts)
    requires Collect(o).Rejected?
    ensures var fs := Collect(o).failures;
      fs != [] && |fs| <= 4 && StrictlyOrdered(FieldsOf(fs))
      && forall f, m :: Failure(f, m) in fs <==> Verdict(f, o) == Invalid(m)
  {
    FailuresAmongMembers(FieldOrder, o);
    FailuresAmongOrdered(FieldOrder, o);
    EveryFieldInOrder();
    OrderedAtMostFour(FieldsOf(Collect(o).failures));
  }

  /** A strictly ordered list of fields has at most one entry per field. */
  lemma OrderedAtMostFour(ps: seq<Field>)
    requires StrictlyOrdered(ps)
    ensures |ps| <= 4
  {
    if |ps| > 0 {
      PositionsGrow(ps, |ps| - 1);
    }
  }

  /** A rejected submit lists exactly the failing fields with their
      messages, at most once each and in the order CEP, Logradouro, Número,
      UF. */
  lemma RejectedListsFailures(v: Snapshot)
    requires Evaluate(v).Rejected?
    ensures var fs := Evaluate(v).failures;
      fs != [] && |fs| <= 4 && StrictlyOrdered(FieldsOf(fs))
      && forall f, m :: Failure(f, m) in fs <==> Check(f, v) == Invalid(m)
  {
    CollectRejected(Checks(v));
    VerdictOfChecks(v);
  }

  lemma {:induction false} PositionsGrow(ps: seq<Field>, i: nat)
    requires StrictlyOrdered(ps) && i < |ps|
    ensures Position(ps[i]) >= i
  {
    if i > 0 {
      PositionsGrow(ps, i - 1);
    }
  }

  /** A flag and a report built field by field, as the submit handler builds
      them, are the decision and the notification of the four outcomes. */
  lemma SubmitDecision(o: Verdicts, isValid: bool, errorMessage: string)
    requires isValid <==> o.cep.Valid? && o.logradouro.Valid? && o.numero.Valid? && o.uf.Valid?
    requires errorMessage == LineOf(Cep, o.cep) + LineOf(Logradouro, o.logradouro)
                             + LineOf(Numero, o.numero) + LineOf(Uf, o.uf)
    ensures isValid <==> Collect(o) == Accepted
    ensures (if isValid then SuccessText else ErrorsHeader + errorMessage) == Notification(Collect(o))
  {
    ReportOfFourFields(o);
  }

  lemma {:induction false} ErrorTextConcat(a: seq<Failure>, b: seq<Failure>)
    ensures ErrorText(a + b) == ErrorText(a) + ErrorText(b)
  {
    if a == [] {
      assert a + b == b;
    } else {
      assert (a + b)[1..] == a[1..] + b;
      ErrorTextConcat(a[1..], b);
    }
  }

  /** The line a field's outcome adds to the report: none when it passes. */
  function LineOf(f: Field, e: Outcome): string {
    if e.Valid? then "" else LinePrefix(f) + Message(e.error) + "\n"
  }

  lemma ErrorTextOfFailureOf(f: Field, o: Verdicts)
    ensures ErrorText(FailureOf(f, o)) == LineOf(f, Verdict(f, o))
  {
  }

  lemma FailuresAmongCons(f: Field, rest: seq<Field>, o: Verdicts)
    ensures FailuresAmong([f] + rest, o) == FailureOf(f, o) + FailuresAmong(rest, o)
  {
    assert ([f] + rest)[1..] == rest;
  }

  lemma FieldOrderFailures(o: Verdicts)
    ensures FailuresAmong(FieldOrder, o)
      == FailureOf(Cep, o) + FailureOf(Logradouro, o) + FailureOf(Numero, o) + FailureOf(Uf, o)
  {
    FailuresAmongCons(Uf, [], o);
    FailuresAmongCons(Numero, [Uf], o);
    FailuresAmongCons(Logradouro, [Numero, Uf], o);
    FailuresAmongCons(Cep, [Logradouro, Numero, Uf], o);
    assert [Uf] == [Uf] + [];
    assert FieldOrder == [Cep] + [Logradouro, Numero, Uf];
  }

  /** The report over the four fields is their lines, in field order. */
  lemma ReportOfFourFields(o: Verdicts)
    ensures ErrorText(FailuresAmong(FieldOrder, o)) == LineOf(Cep, o.cep)
      + LineOf(Logradouro, o.logradouro) + LineOf(Numero, o.numero) + LineOf(Uf, o.uf)
    ensures FailuresAmong(FieldOrder, o) == [] <==>
      o.cep.Valid? && o.logradouro.Valid? && o.numero.Valid? && o.uf.Valid?
  {
    FieldOrderFailures(o);
    var a, b, c, d := FailureOf(Cep, o), FailureOf(Logradouro, o), FailureOf(Numero, o), FailureOf(Uf, o);
    ErrorTextConcat(a + b + c, d);
    ErrorTextConcat(a + b, c);
    ErrorTextConcat(a, b);
    ErrorTextOfFailureOf(Cep, o);
    ErrorTextOfFailureOf(Logradouro, o);
    ErrorTextOfFailureOf(Numero, o);
    ErrorTextOfFailureOf(Uf, o);
  }

  /** The report is empty exactly when there is no failure: every line is
      non-empty. */
  lemma ErrorTextEmptyIff(fs: seq<Failure>)
    ensures ErrorText(fs) == [] <==> fs == []
  {
    if fs != [] {
      assert |ErrorLine(fs[0])| > 0;
    }
  }

  /** The form's four field slots. */
  class AddressForm {
    var cep: string
    var logradouro: string
    var numero: string
    var uf: string

    constructor (cep: string, logradouro: string, numero: string, uf: string)
      ensures this.cep == cep && this.logradouro == logradouro
      ensures this.numero == numero && this.uf == uf
    {
      this.cep := cep;
      this.logradouro := logradouro;
      this.numero := numero;
      this.uf := uf;
    }

    function Values(): Snapshot
      reads this
    {
      Snapshot(cep, logradouro, numero, uf)
    }

    /** The CEP `input` handler: the slot is overwritten with its mask. */
    method OnCepInput()
      modifies this
      ensures cep == MaskCep(old(cep))
      ensures logradouro == old(logradouro) && numero == old(numero) && uf == old(uf)
    {
      var value := OnlyDigits(cep);
      if |value| > 5 {
        cep := Substring(value, 0, 5) + "-" + Substring(value, 5, 8);
      } else {
        cep := value;
      }
    }

    /** The UF `input` handler: the slot is overwritten with its upper case. */
    method OnUfInput()
      modifies this
      ensures uf == ToUpperCase(old(uf))
      ensures cep == old(cep) && logradouro == old(logradouro) && numero == old(numero)
    {
      uf := ToUpperCase(uf);
    }

    /** The `submit` handler. All four validators run, in field order, with
        no short-circuit; each failure appends its labelled line to the
        report and clears the flag. The slots are only read. */
    method Submit() returns (isValid: bool, notification: string)
      ensures isValid <==> ValidarCEP(cep) == Valid && ValidarLogradouro(Trim(logradouro)) == Valid
                           && ValidarNumero(Trim(numero)) == Valid && ValidarUF(uf) == Valid
      ensures isValid <==> Evaluate(Values()) == Accepted
      ensures notification == Notification(Evaluate(Values()))
    {
      isValid := true;
      var errorMessage := "";

      var cepError := ValidarCEP(cep);
      if cepError.Invalid? {
        errorMessage := errorMessage + ("CEP: " + Message(cepError.error) + "\n");
        isValid := false;
      }
      ghost var report := LineOf(Cep, cepError);
      assert errorMessage == report;

      var logradouroError := ValidarLogradouro(Trim(logradouro));
      if logradouroError.Invalid? {
        errorMessage := errorMessage + ("Logradouro: " + Message(logradouroError.error) + "\n");
        isValid := false;
      }
      report := report + LineOf(Logradouro, logradouroError);
      assert errorMessage == report;

      var numeroError := ValidarNumero(Trim(numero));
      if numeroError.Invalid? {
        errorMessage := errorMessage + ("Número: " + Message(numeroError.error) + "\n");
        isValid := false;
      }
      report := report + LineOf(Numero, numeroError);
      assert errorMessage == report;

      var ufError := ValidarUF(uf);
      if ufError.Invalid? {
        errorMessage := errorMessage + ("UF: " + Message(ufError.error) + "\n");
        isValid := false;
      }
      report := report + LineOf(Uf, ufError);
      assert errorMessage == report;

      if isValid {
        notification := SuccessText;
      } else {
        notification := ErrorsHeader + errorMessage;
      }
      ghost var o := Verdicts(cepError, logradouroError, numeroError, ufError);
      SubmitDecision(o, isValid, errorMessage);
      ghost var v := Values();
      assert Checks(v) == o by {
        assert Check(Cep, v) == cepError && Check(Logradouro, v) == logradouroError;
        assert Check(Numero, v) == numeroError && Check(Uf, v) == ufError;
      }
    }
  }
}

/** Worked cases of the address form, stated against the model. */
module Scenarios {
  import opened JsString
  import opened Validation
  import opened Formatting
  import opened Submission

  // The example lemmas take their literals as parameters fixed by `requires`:
  // a parameter keeps the solver from unfolding the recursive string
  // functions over the literal, which keeps these proofs cheap.

  lemma CepExamples(good: string, short: string, digitsOnly: string)
    requires good == "01310-100" && short == "123" && digitsOnly == "01310100"
    ensures ValidarCEP(good) == Valid
    ensures ValidarCEP(short) == Invalid(CepFormat)
    ensures ValidarCEP(digitsOnly) == Invalid(CepFormat)
    ensures ValidarCEP("") == Invalid(CepRequired)
  {
    assert digitsOnly[5] != '-';
  }

  lemma LogradouroExamples(short: string, long: string)
    requires short == "Av" && long == "Av Paulista"
    ensures ValidarLogradouro(short) == Invalid(LogradouroTooShort)
    ensures ValidarLogradouro(long) == Valid
    ensures ValidarLogradouro("") == Invalid(LogradouroRequired)
  {
  }

  lemma NumeroExamples(mixed: string, digits: string)
    requires mixed == "12a" && digits == "1000"
    ensures ValidarNumero(mixed) == Invalid(NumeroNotDigits)
    ensures ValidarNumero(digits) == Valid
    ensures ValidarNumero("") == Invalid(NumeroRequired)
  {
    assert !IsAsciiDigit(mixed[2]);
  }

  lemma UfExamples(lower: string, upper: string, long: string)
    requires lower == "sp" && upper == "SP" && long == "SPX"
    ensures ValidarUF(lower) == Invalid(UfFormat)
    ensures ValidarUF(upper) == Valid
    ensures ValidarUF(long) == Invalid(UfFormat)
    ensures ValidarUF("") == Invalid(UfRequired)
  {
  }

  lemma MaskCepExamples(full: string, short: string)
    requires full == "01310100" && short == "123"
    ensures MaskCep(full) == "01310-100"
    ensures MaskCep(short) == short
  {
    OnlyDigitsOfDigits(full);
    assert MaskCep(full) == full[..5] + "-" + full[5..];
    OnlyDigitsOfDigits(short);
  }

  /** The four values of a well-filled form, as the submit handler passes
      them, each pass their validator. */
  lemma AcceptedInputs(cep: string, logradouro: string, numero: string, uf: string)
    requires cep == "01310-100" && Trim(logradouro) == "Av Paulista" && numero == "1000" && uf == "SP"
    ensures ValidarCEP(cep) == Valid && ValidarLogradouro(Trim(logradouro)) == Valid
    ensures ValidarNumero(Trim(numero)) == Valid && ValidarUF(uf) == Valid
  {
    TrimOfTrimmed(numero);
  }

  /** Well-formed values in every field are accepted. */
  lemma SubmitAcceptedExample(cep: string, logradouro: string, numero: string, uf: string)
    requires cep == "01310-100" && logradouro == "Av Paulista" && numero == "1000" && uf == "SP"
    ensures Evaluate(Snapshot(cep, logradouro, numero, uf)) == Accepted
  {
    TrimOfTrimmed(logradouro);
    AcceptedInputs(cep, logradouro, numero, uf);
    AcceptedWhenAllPass(Snapshot(cep, logradouro, numero, uf));
  }

  /** Every field wrong: all four failures, in form order. */
  lemma SubmitRejectedExample(cep: string, logradouro: string, numero: string, uf: string)
    requires cep == "123" && logradouro == "Av" && numero == "12a" && uf == "sp"
    ensures Evaluate(Snapshot(cep, logradouro, numero, uf))
      == Rejected([Failure(Cep, CepFormat), Failure(Logradouro, LogradouroTooShort),
                   Failure(Numero, NumeroNotDigits), Failure(Uf, UfFormat)])
  {
    TrimOfTrimmed(logradouro);
    TrimOfTrimmed(numero);
    assert !IsAsciiDigit(numero[2]) && !IsAsciiUpper(uf[0]);
    RejectedWhenAllFail(Snapshot(cep, logradouro, numero, uf));
  }

  lemma AcceptedWhenAllPass(v: Snapshot)
    requires ValidarCEP(v.cep) == Valid && ValidarLogradouro(Trim(v.logradouro)) == Valid
    requires ValidarNumero(Trim(v.numero)) == Valid && ValidarUF(v.uf) == Valid
    ensures Evaluate(v) == Accepted
  {
    var o := Checks(v);
    assert o == Verdicts(Valid, Valid, Valid, Valid);
    ReportOfFourFields(o);
  }

  lemma RejectedWhenAllFail(v: Snapshot)
    requires ValidarCEP(v.cep) == Invalid(CepFormat)
    requires ValidarLogradouro(Trim(v.logradouro)) == Invalid(LogradouroTooShort)
    requires ValidarNumero(Trim(v.numero)) == Invalid(NumeroNotDigits)
    requires ValidarUF(v.uf) == Invalid(UfFormat)
    ensures Evaluate(v) == Rejected([Failure(Cep, CepFormat), Failure(Logradouro, LogradouroTooShort),
                   Failure(Numero, NumeroNotDigits), Failure(Uf, UfFormat)])
  {
    var o := Checks(v);
    assert o == Verdicts(Invalid(CepFormat), Invalid(LogradouroTooShort), Invalid(NumeroNotDigits), Invalid(UfFormat));
    FieldOrderFailures(o);
  }

  lemma TrimExample(padded: string)
    requires padded == "  Av Paulista "
    ensures Trim(padded) == "Av Paulista"
  {
    var t := padded[2..];
    assert TrimStart(padded) == TrimStart(padded[1..]) == TrimStart(t) == t;
    assert TrimEnd(t) == TrimEnd(t[..|t| - 1]) == t[..|t| - 1];
  }

  lemma UpperCaseExample(lower: string)
    requires lower == "sp"
    ensures ToUpperCase(lower) == "SP"
  {
    assert ToUpperCase(lower)[0] == 'S' && ToUpperCase(lower)[1] == 'P';
  }

  /** Typing into the form and submitting: the mask and the upper-casing
      turn raw input into values the validators accept. */
  method TypeAndSubmit() returns (isValid: bool, notification: string)
    ensures isValid && notification == SuccessText
  {
    var form := new AddressForm("01310100", "  Av Paulista ", "1000", "sp");
    MaskCepExamples(form.cep, "123");
    form.OnCepInput();
    form.OnUfInput();
    UpperCaseExample("sp");
    TrimExample(form.logradouro);
    AcceptedInputs(form.cep, form.logradouro, form.numero, form.uf);
    isValid, notification := form.Submit();
  }
}

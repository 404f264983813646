/** The four field validators of the address form. Each is total: it answers
    `Valid` (the script's `null`) or `Invalid` carrying one of exactly two
    message codes, and it checks emptiness before shape. A field value is always a
    string, so the script's `!value` holds exactly for the empty string.
 */
module Validation {
  import opened JsString
  import opened Pattern

  /** Why a validator rejects a value: one code per message of the script. */
  datatype Error =
    | CepRequired | CepFormat
    | LogradouroRequired | LogradouroTooShort
    | NumeroRequired | NumeroNotDigits
    | UfRequired | UfFormat

  /** The message string the validator returns for each code. */
  function Message(e: Error): string {
    match e
    case CepRequired => "O campo CEP é obrigatório."
    case CepFormat => "O CEP deve estar no formato 00000-000."
    case LogradouroRequired => "O campo Logradouro é obrigatório."
    case LogradouroTooShort => "O Logradouro deve conter no mínimo 5 caracteres."
    case NumeroRequired => "O campo Número é obrigatório."
    case NumeroNotDigits => "O campo Número deve conter apenas dígitos numéricos."
    case UfRequired => "O campo UF é obrigatório."
    case UfFormat => "A UF deve conter exatamente 2 letras maiúsculas (ex: SP, RJ)."
  }

  /** A validator's answer: `Valid` for the script's `null`, otherwise the
      code of the message string it returns. */
  datatype Outcome = Valid | Invalid(error: Error)

  /** The well-formed CEP `00000-000`, position by position. */
  predicate IsCepShape(s: string) {
    |s| == 9 && s[5] == '-' && forall i :: 0 <= i < 9 && i != 5 ==> IsAsciiDigit(s[i])
  }

  predicate IsUfShape(s: string) {
    |s| == 2 && IsAsciiUpper(s[0]) && IsAsciiUpper(s[1])
  }

  function ValidarCEP(cep: string): (r: Outcome)
    ensures r == Invalid(CepRequired) <==> cep == []
    ensures r == Invalid(CepFormat) <==> cep != [] && !IsCepShape(cep)
    ensures r == Valid <==> IsCepShape(cep)
  {
    CepRegexIff(cep);
    if cep == [] then Invalid(CepRequired)
    else if !Test(CepRegex, cep) then Invalid(CepFormat)
    else Valid
  }

  function ValidarLogradouro(logradouro: string): (r: Outcome)
    ensures r == Invalid(LogradouroRequired) <==> logradouro == []
    ensures r == Invalid(LogradouroTooShort) <==> 1 <= |logradouro| <= 4
    ensures r == Valid <==> |logradouro| >= 5
  {
    if logradouro == [] then Invalid(LogradouroRequired)
    else if |logradouro| < 5 then Invalid(LogradouroTooShort)
    else Valid
  }

  function ValidarNumero(numero: string): (r: Outcome)
    ensures r == Invalid(NumeroRequired) <==> numero == []
    ensures r == Invalid(NumeroNotDigits) <==> numero != [] && !AllDigits(numero)
    ensures r == Valid <==> numero != [] && AllDigits(numero)
  {
    NumeroRegexIff(numero);
    if numero == [] then Invalid(NumeroRequired)
    else if !Test(NumeroRegex, numero) then Invalid(NumeroNotDigits)
    else Valid
  }

  function ValidarUF(uf: string): (r: Outcome)
    ensures r == Invalid(UfRequired) <==> uf == []
    ensures r == Invalid(UfFormat) <==> uf != [] && !IsUfShape(uf)
    ensures r == Valid <==> IsUfShape(uf)
  {
    UfRegexIff(uf);
    if uf == [] then Invalid(UfRequired)
    else if !Test(UfRegex, uf) then Invalid(UfFormat)
    else Valid
  }
}

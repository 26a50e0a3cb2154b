/**
 * `ProverError`: the prover's single error type, its `Display` text (a fixed
 * prefix per variant followed by the carried message) and the `From`
 * conversions that `?` applies. Foreign error values (`std::io::Error`,
 * `serde_json::Error`, `base64::DecodeError`, `halo2_proofs::plonk::Error`)
 * are represented by their rendered text.
 */
module Errors {
  import opened Wrappers

  datatype ProverError =
    | CircuitError(msg: string)
    | ParseError(msg: string)
    | ProofGenerationError(msg: string)
    | VerificationError(msg: string)
    | NetworkError(msg: string)
    | RealTraceError(msg: string)
    | InvalidTransaction(msg: string)
    | RpcConnectionError(msg: string)
    | InvalidInput(msg: string)
    | IoError(msg: string)          // carries the io::Error's own display text
    | JsonError(msg: string)        // carries the serde_json::Error's display text
    | Base64Error(msg: string)
    | Halo2Error(msg: string)
    | EvmError(msg: string)
    | ResourceError(msg: string)

  /** The `#[error("...: {0}")]` prefix of each variant. */
  function Prefix(e: ProverError): string {
    match e
    case CircuitError(_) => "Circuit error: "
    case ParseError(_) => "Parse error: "
    case ProofGenerationError(_) => "Proof generation failed: "
    case VerificationError(_) => "Verification failed: "
    case NetworkError(_) => "Network error: "
    case RealTraceError(_) => "Real trace error: "
    case InvalidTransaction(_) => "Invalid transaction: "
    case RpcConnectionError(_) => "RPC connection failed: "
    case InvalidInput(_) => "Invalid input: "
    case IoError(_) => "IO error: "
    case JsonError(_) => "JSON error: "
    case Base64Error(_) => "Base64 error: "
    case Halo2Error(_) => "Halo2 error: "
    case EvmError(_) => "EVM error: "
    case ResourceError(_) => "Resource limit exceeded: "
  }

  /** `err.to_string()`. */
  function Display(e: ProverError): (s: string)
    ensures Prefix(e) <= s
  {
    Prefix(e) + e.msg
  }

  /** The variant of `e` carrying message `m` instead. */
  function WithMsg(e: ProverError, m: string): (r: ProverError)
    ensures Prefix(r) == Prefix(e) && r.msg == m
  {
    match e
    case CircuitError(_) => CircuitError(m)
    case ParseError(_) => ParseError(m)
    case ProofGenerationError(_) => ProofGenerationError(m)
    case VerificationError(_) => VerificationError(m)
    case NetworkError(_) => NetworkError(m)
    case RealTraceError(_) => RealTraceError(m)
    case InvalidTransaction(_) => InvalidTransaction(m)
    case RpcConnectionError(_) => RpcConnectionError(m)
    case InvalidInput(_) => InvalidInput(m)
    case IoError(_) => IoError(m)
    case JsonError(_) => JsonError(m)
    case Base64Error(_) => Base64Error(m)
    case Halo2Error(_) => Halo2Error(m)
    case EvmError(_) => EvmError(m)
    case ResourceError(_) => ResourceError(m)
  }

  /** One representative of each variant, in declaration order. */
  const Variants: seq<ProverError> := [
    CircuitError(""), ParseError(""), ProofGenerationError(""), VerificationError(""),
    NetworkError(""), RealTraceError(""), InvalidTransaction(""), RpcConnectionError(""),
    InvalidInput(""), IoError(""), JsonError(""), Base64Error(""), Halo2Error(""),
    EvmError(""), ResourceError("")]

  /**
   * Reads a displayed error back: the variant from the first ten characters,
   * the message from what follows that variant's prefix.
   */
  function ParseDisplay(s: string): Option<ProverError> {
    if |s| < 10 || ClassOf(s) == |Variants| then None
    else
      var v := Variants[ClassOf(s)];
      if Prefix(v) <= s then Some(WithMsg(v, s[|Prefix(v)|..])) else None
  }

  // `From` conversions

  /** `impl From<std::io::Error>` (derived by `#[from]`). */
  function FromIo(ioText: string): (e: ProverError)
    ensures Display(e) == "IO error: " + ioText
  {
    IoError(ioText)
  }

  /** `impl From<serde_json::Error>` (derived by `#[from]`). */
  function FromJson(jsonText: string): (e: ProverError)
    ensures Display(e) == "JSON error: " + jsonText
  {
    JsonError(jsonText)
  }

  /** `impl From<base64::DecodeError>`: keeps the decoder's text. */
  function FromBase64(decodeText: string): (e: ProverError)
    ensures Display(e) == "Base64 error: " + decodeText
  {
    Base64Error(decodeText)
  }

  /** `impl From<halo2_proofs::plonk::Error>`: keeps the error's debug text. */
  function FromHalo2(debugText: string): (e: ProverError)
    ensures Display(e) == "Halo2 error: " + debugText
  {
    Halo2Error(debugText)
  }

  /**
   * The variant a displayed error starts with, read from its first ten
   * characters (every prefix is at least that long); 15 for none.
   */
  function ClassOf(s: string): (k: nat)
    requires |s| >= 10
    ensures k <= |Variants|
  {
    match s[0]
    case 'C' => 0
    case 'P' => if s[1] == 'a' then 1 else 2
    case 'V' => 3
    case 'N' => 4
    case 'R' => if s[1] == 'P' then 7 else if s[2] == 'a' then 5 else 14
    case 'I' => if s[1] == 'O' then 9 else if s[8] == 't' then 6 else 8
    case 'J' => 10
    case 'B' => 11
    case 'H' => 12
    case 'E' => 13
    case _ => 15
  }

  lemma ClassOfPrefix(e: ProverError)
    ensures |Prefix(e)| >= 10 && ClassOf(Prefix(e)) == VariantIndex(e)
  {
  }

  lemma VariantIndexOf(k: nat)
    requires k < |Variants|
    ensures VariantIndex(Variants[k]) == k
  {
  }

  lemma ClassOfFirstTen(s: string, t: string)
    requires |s| >= 10 && |t| >= 10 && s[..10] == t[..10]
    ensures ClassOf(s) == ClassOf(t)
  {
    assert s[0] == t[0] && s[1] == t[1] && s[2] == t[2] && s[8] == t[8] by {
      assert s[0] == s[..10][0] && t[0] == t[..10][0];
      assert s[1] == s[..10][1] && t[1] == t[..10][1];
      assert s[2] == s[..10][2] && t[2] == t[..10][2];
      assert s[8] == s[..10][8] && t[8] == t[..10][8];
    }
  }

  /** No displayed error starts with the prefix of a variant other than its own. */
  lemma PrefixesDistinct(k: nat, e: ProverError)
    requires k < |Variants| && k != VariantIndex(e)
    ensures !(Prefix(Variants[k]) <= Display(e))
  {
    var pk, s := Prefix(Variants[k]), Display(e);
    ClassOfPrefix(Variants[k]);
    ClassOfPrefix(e);
    VariantIndexOf(k);
    if pk <= s {
      assert pk[..10] == s[..10] == Prefix(e)[..10];
      ClassOfFirstTen(pk, Prefix(e));
      assert false;
    }
  }

  /** The position of `e`'s variant in `Variants`. */
  function VariantIndex(e: ProverError): (j: nat)
    ensures j < |Variants|
  {
    match e
    case CircuitError(_) => 0
    case ParseError(_) => 1
    case ProofGenerationError(_) => 2
    case VerificationError(_) => 3
    case NetworkError(_) => 4
    case RealTraceError(_) => 5
    case InvalidTransaction(_) => 6
    case RpcConnectionError(_) => 7
    case InvalidInput(_) => 8
    case IoError(_) => 9
    case JsonError(_) => 10
    case Base64Error(_) => 11
    case Halo2Error(_) => 12
    case EvmError(_) => 13
    case ResourceError(_) => 14
  }

  /** The representative at `e`'s position has `e`'s prefix, and carrying `e`'s message it is `e`. */
  lemma VariantRepresentative(e: ProverError)
    ensures Prefix(Variants[VariantIndex(e)]) == Prefix(e)
    ensures WithMsg(Variants[VariantIndex(e)], e.msg) == e
  {
  }

  /** The display text determines the error: variant and message can be read back. */
  lemma DisplayRoundTrip(e: ProverError)
    ensures ParseDisplay(Display(e)) == Some(e)
  {
    var s := Display(e);
    ClassOfPrefix(e);
    assert s[..10] == Prefix(e)[..10];
    ClassOfFirstTen(s, Prefix(e));
    VariantRepresentative(e);
    assert s[|Prefix(e)|..] == e.msg;
  }

  /** The rendering the error module's own display test expects. */
  lemma DisplayCircuitError()
    ensures Display(CircuitError("test error")) == "Circuit error: test error"
    ensures ParseDisplay("Circuit error: test error") == Some(CircuitError("test error"))
  {
    DisplayRoundTrip(CircuitError("test error"));
  }
}

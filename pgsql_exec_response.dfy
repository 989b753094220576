/**
 * The envelope decoder for the composite value a PostgreSQL function returns
 * (PgsqlExecResponse). The value is tokenised into positional fields:
 *
 *   0 status, 1 data, 2 errors, 3 errorCode, 4 message, 5 hint, 6 detail
 *
 * A status equal to OK (ignoring case) gives a success envelope carrying the
 * parsed data; any other status gives a failure envelope whose errors are
 * recovered from field 2 or, failing that, synthesised from the diagnostic
 * fields.
 *
 * The tokenizer, the quote stripper and the JSON readers belong to other
 * classes and libraries; they are parameters (`Collaborators`), and nothing is
 * assumed about them beyond their types except where a lemma says so.
 */
module PgsqlExec {

  import opened Wrappers
  import opened Strings
  import opened Json

  /** The name of the OK status (EnumStatus.OK.getName()). */
  const OkName: string := "OK"

  /**
   * The helpers the decoder calls. `None` stands for a null result of
   * ParseUtils.stripQuotes and ParseUtils.parseJson, for a malformed composite
   * literal in ParseUtils.parse, and for the exception Gson's
   * JsonParser.parseString throws on text that is not JSON.
   */
  datatype Collaborators = Collaborators(
    tokenize: string -> Option<seq<string>>,
    stripQuotes: string -> Option<string>,
    parseJson: string -> Option<Json>,
    parseString: string -> Option<Json>)

  /** Why no envelope is produced: the exceptions that escape the constructor. */
  datatype DecodeError =
    | MalformedComposite    // the tokenizer rejected the literal
    | InsufficientFields    // "insufficient fields": the literal held no field at all
    | MalformedErrorObject  // the synthesised error object was not readable JSON

  /** The seven fields of a response; `None` is a null field. */
  datatype Envelope = Envelope(
    status: Option<string>,
    data: Option<Json>,
    errors: Option<Json>,
    errorCode: Option<string>,
    message: Option<string>,
    hint: Option<string>,
    detail: Option<string>)

  /**
   * The status names success: equalsIgnoreCase with OK, which is false for
   * null. Exactly the four spellings of "ok" qualify.
   */
  predicate IsOk(status: Option<string>)
    ensures IsOk(status) <==> status in {Some("OK"), Some("Ok"), Some("oK"), Some("ok")}
  {
    if status.Some? && |status.value| == 2 then
      var v := status.value;
      assert v == [v[0], v[1]];
      EqualsIgnoreCase(OkName, v)
    else
      status.Some? && EqualsIgnoreCase(OkName, status.value)
  }

  /**
   * The envelope invariant: a success carries no errors, and a failure carries
   * no data and an errors value that is always a JSON array.
   */
  predicate WellFormed(e: Envelope) {
    && (IsOk(e.status) ==> e.errors.None?)
    && (!IsOk(e.status) ==> e.data.None? && e.errors.Some? && e.errors.value.JArray?)
  }

  /** Diagnostic field `i`: the unquoted field when the list reaches it, "" otherwise. */
  function DiagnosticField(fields: seq<string>, i: nat, c: Collaborators): (r: Option<string>)
    ensures i < |fields| ==> r == c.stripQuotes(fields[i])
    ensures |fields| <= i ==> r == Some("")
  {
    if |fields| > i then c.stripQuotes(fields[i]) else Some("")
  }

  // ---------------------------------------------------------------------------
  // Error recovery, step 1: structured errors embedded in field 2
  // ---------------------------------------------------------------------------

  /** Drops one quote layer around text shaped "[...]" or "{...}"; other text is kept. */
  function PeelQuoteLayer(s: string): (r: string)
    ensures HasQuoteLayer(s) <==> r != s
    ensures r != s ==> |s| >= 2 && r == s[1..|s| - 1]
  {
    if HasQuoteLayer(s) then s[1..|s| - 1] else s
  }

  /** The text starts with `"[` and ends with `]"`, or starts with `"{` and ends with `}"`. */
  predicate HasQuoteLayer(s: string)
    ensures HasQuoteLayer(s) ==> |s| >= 2
  {
    (StartsWith(s, "\"[") && EndsWith(s, "]\"")) || (StartsWith(s, "\"{") && EndsWith(s, "}\""))
  }

  /**
   * Peeling removes exactly one quote layer around a bracketed text, and
   * leaves every other text as it is.
   */
  lemma PeelQuoteLayerShape(s: string)
    ensures !HasQuoteLayer(s) ==> PeelQuoteLayer(s) == s
    ensures HasQuoteLayer(s) ==>
              var r := PeelQuoteLayer(s);
              && s == ['"'] + r + ['"'] && |r| >= 2
              && ((r[0] == '[' && r[|r| - 1] == ']') || (r[0] == '{' && r[|r| - 1] == '}'))
  {
    if HasQuoteLayer(s) {
      assert s[0] == s[..2][0] && s[1] == s[..2][1];
      assert s[|s| - 2] == s[|s| - 2..][0] && s[|s| - 1] == s[|s| - 2..][1];
      assert s == [s[0]] + s[1..|s| - 1] + [s[|s| - 1]];
    }
  }

  /** A single error is wrapped into a one-element array; an array is kept. */
  function AsArray(e: Json): (r: Json)
    ensures r.JArray?
    ensures e.JArray? ==> r == e
    ensures !e.JArray? ==> r.items == [e]
  {
    if e.JArray? then e else JArray([e])
  }

  /** The text handed to the JSON reader: un-doubled quotes, one quote layer peeled. */
  function CleanedErrorsText(cleaned: string): (r: string)
    ensures |r| <= |cleaned|
    ensures Avoids(cleaned, {'"'}) ==> r == cleaned
  {
    UndoubledQuoteFree(cleaned, '"');
    assert Avoids(cleaned, {'"'}) && |cleaned| >= 2 ==> cleaned[0] != '"';
    PeelQuoteLayer(Undoubled(cleaned, '"'))
  }

  /**
   * The errors embedded in the raw errors field, normalised to an array, or
   * None when the field is null or blank after unquoting or is not JSON.
   */
  function EmbeddedErrors(errorsStr: string, c: Collaborators): (r: Option<Json>)
    ensures r.Some? ==> r.value.JArray?
  {
    var cleaned := c.stripQuotes(errorsStr);
    if cleaned.Some? && Trim(cleaned.value) != [] then
      match c.parseString(CleanedErrorsText(cleaned.value))
      case Some(e) => Some(AsArray(e))
      case None => None
    else None
  }

  // ---------------------------------------------------------------------------
  // Error recovery, step 2: the synthesised error
  // ---------------------------------------------------------------------------

  /** The error type of an SQLSTATE code (PostgreSQL error codes, class 23). */
  function ErrorType(code: Option<string>): (t: string)
    ensures t == "validation" <==> code == Some("23514")
    ensures t == "constraint" <==> code in {Some("23502"), Some("23503"), Some("23505")}
    ensures t == "database" <==> code !in {Some("23514"), Some("23502"), Some("23503"), Some("23505")}
  {
    if code == Some("23514") then "validation"
    else if code == Some("23502") || code == Some("23503") || code == Some("23505") then "constraint"
    else "database"
  }

  /** A diagnostic field with doubled quotes undone; a null field contributes nothing. */
  function Cleaned(s: Option<string>): (r: string)
    ensures r == [] <==> s.None? || s.value == []
    ensures s.Some? ==> |r| <= |s.value|
    ensures s.Some? && Avoids(s.value, {'"'}) ==> r == s.value
  {
    if s.Some? then UndoubledQuoteFree(s.value, '"'); Undoubled(s.value, '"') else ""
  }

  /** Message and detail, joined by ": " exactly when both are present. */
  function SynthesizedMessage(message: Option<string>, detail: Option<string>): (r: string)
    ensures StartsWith(r, Cleaned(message)) && EndsWith(r, Cleaned(detail))
    ensures Cleaned(message) != [] && Cleaned(detail) != [] ==>
              |r| == |Cleaned(message)| + 2 + |Cleaned(detail)|
              && r[|Cleaned(message)|..|Cleaned(message)| + 2] == ": "
    ensures Cleaned(message) == [] || Cleaned(detail) == [] ==> |r| == |Cleaned(message)| + |Cleaned(detail)|
  {
    var head := Cleaned(message);
    var tail := Cleaned(detail);
    head + (if head != [] && tail != [] then ": " else "") + tail
  }

  /** Every `"` preceded by a backslash, as for a JSON string literal. */
  function EscapeQuotes(s: string): (r: string)
    ensures |r| == |s| + Count(s, '"')
    ensures forall i :: 0 <= i < |r| && r[i] == '"' ==> 0 < i && r[i - 1] == '\\'
    ensures Avoids(s, {'\\'}) ==> RemoveAll(r, '\\') == s
  {
    EscapedQuotes(s);
    ReplaceChar(s, '"', "\\\"")
  }

  lemma {:induction false} EscapedQuotes(s: string)
    ensures var r := ReplaceChar(s, '"', "\\\"");
            && |r| == |s| + Count(s, '"')
            && (forall i :: 0 <= i < |r| && r[i] == '"' ==> 0 < i && r[i - 1] == '\\')
            && (Avoids(s, {'\\'}) ==> RemoveAll(r, '\\') == s)
  {
    if s != [] {
      EscapedQuotes(s[1..]);
      var head := if s[0] == '"' then "\\\"" else [s[0]];
      var tail := ReplaceChar(s[1..], '"', "\\\"");
      assert ReplaceChar(s, '"', "\\\"") == head + tail;
      RemoveAllAppend(head, tail, '\\');
    }
  }

  /** The JSON text of the synthesised error object. */
  function ErrorObjectText(ty: string, code: string, msg: string): (r: string)
    ensures |r| == 39 + |ty| + |code| + |msg|
    ensures StartsWith(r, "{\"type\": \"") && EndsWith(r, "\"}")
    ensures r[10..10 + |ty|] == ty
    ensures r[10 + |ty|..22 + |ty|] == "\", \"code\": \""
    ensures r[22 + |ty|..22 + |ty| + |code|] == code
    ensures r[22 + |ty| + |code|..37 + |ty| + |code|] == "\", \"message\": \""
    ensures r[37 + |ty| + |code|..|r| - 2] == msg
  {
    "{\"type\": \"" + ty + "\", \"code\": \"" + code + "\", \"message\": \"" + msg + "\"}"
  }

  /** The error object that text denotes. */
  function ErrorObject(ty: string, code: string, msg: string): Json {
    JObject([("type", JString(ty)), ("code", JString(code)), ("message", JString(msg))])
  }

  /** The code reported in the synthesised error: the error code, or "" if null. */
  function ReportedCode(errorCode: Option<string>): (r: string)
    ensures errorCode.Some? ==> r == errorCode.value
    ensures errorCode.None? ==> r == []
  {
    if errorCode.Some? then errorCode.value else ""
  }

  /** Exactly one error element built from the diagnostic fields, read back by the JSON reader. */
  function SynthesizedErrors(errorCode: Option<string>, message: Option<string>, detail: Option<string>,
                             c: Collaborators): (r: Result<Json, DecodeError>)
    ensures r.Success? ==> r.value.JArray? && |r.value.items| == 1
    ensures r.Failure? ==> r.error == MalformedErrorObject
  {
    var text := ErrorObjectText(ErrorType(errorCode), ReportedCode(errorCode),
                                EscapeQuotes(SynthesizedMessage(message, detail)));
    match c.parseString(text)
    case Some(e) => Success(JArray([e]))
    case None => Failure(MalformedErrorObject)
  }

  /**
   * parseErrors: the embedded errors if there are any, else (for a non-OK
   * status) the synthesised error, else an empty array.
   */
  function RecoverErrors(errorsStr: string, status: Option<string>, errorCode: Option<string>,
                         message: Option<string>, detail: Option<string>,
                         c: Collaborators): (r: Result<Json, DecodeError>)
    ensures r.Success? ==> r.value.JArray?
  {
    match EmbeddedErrors(errorsStr, c)
    case Some(errs) => Success(errs)
    case None =>
      if !IsOk(status) then SynthesizedErrors(errorCode, message, detail, c)
      else Success(JArray([]))
  }

  // ---------------------------------------------------------------------------
  // The decoder
  // ---------------------------------------------------------------------------

  /** The envelope the constructor builds from the tokenised fields. */
  function Decode(fields: seq<string>, c: Collaborators): (r: Result<Envelope, DecodeError>)
    ensures |fields| == 0 <==> r == Failure(InsufficientFields)
    ensures r.Failure? ==> r.error != MalformedComposite
    ensures r.Success? ==> r.value.status == c.stripQuotes(fields[0]) && WellFormed(r.value)
  {
    if |fields| < 1 then Failure(InsufficientFields)
    else
      var status := c.stripQuotes(fields[0]);
      var errorCode := DiagnosticField(fields, 3, c);
      var message := DiagnosticField(fields, 4, c);
      var hint := DiagnosticField(fields, 5, c);
      var detail := DiagnosticField(fields, 6, c);
      if IsOk(status) then
        var data := if |fields| > 1 then c.parseJson(fields[1]) else None;
        Success(Envelope(status, data, None, errorCode, message, hint, detail))
      else
        var errorsStr := if |fields| > 2 then fields[2] else "";
        match RecoverErrors(errorsStr, status, errorCode, message, detail, c)
        case Success(errs) => Success(Envelope(status, None, Some(errs), errorCode, message, hint, detail))
        case Failure(err) => Failure(err)
  }

  /** The whole pipeline from the composite literal: tokenise, then decode. */
  function DecodeText(raw: string, c: Collaborators): (r: Result<Envelope, DecodeError>)
    ensures c.tokenize(raw).None? <==> r == Failure(MalformedComposite)
    ensures c.tokenize(raw).Some? ==> r == Decode(c.tokenize(raw).value, c)
  {
    match c.tokenize(raw)
    case None => Failure(MalformedComposite)
    case Some(fields) => Decode(fields, c)
  }

  // ---------------------------------------------------------------------------
  // Properties of the decoder
  // ---------------------------------------------------------------------------

  /** On a success status: the data is the parsed field 1 if there is one, and there are no errors. */
  lemma OkStatusCarriesData(fields: seq<string>, c: Collaborators)
    requires |fields| >= 1 && IsOk(c.stripQuotes(fields[0]))
    ensures Decode(fields, c).Success?
    ensures Decode(fields, c).value.data == (if |fields| > 1 then c.parseJson(fields[1]) else None)
    ensures Decode(fields, c).value.errors == None
  {
  }

  /** On any other status: no data, and the errors are those recovered from field 2 (or ""). */
  lemma OtherStatusCarriesErrors(fields: seq<string>, c: Collaborators)
    requires |fields| >= 1 && !IsOk(c.stripQuotes(fields[0]))
    ensures var rec := RecoverErrors(if |fields| > 2 then fields[2] else "", c.stripQuotes(fields[0]),
                                     DiagnosticField(fields, 3, c), DiagnosticField(fields, 4, c),
                                     DiagnosticField(fields, 6, c), c);
            && (Decode(fields, c).Success? <==> rec.Success?)
            && (rec.Success? ==> Decode(fields, c).value.data == None
                                 && Decode(fields, c).value.errors == Some(rec.value))
            && (rec.Failure? ==> Decode(fields, c) == Failure(rec.error))
  {
  }

  /**
   * Whatever the status, the diagnostic fields are the unquoted fields 3 to 6
   * by position, and "" for positions past the end of the list.
   */
  lemma DiagnosticsByPosition(fields: seq<string>, c: Collaborators)
    requires Decode(fields, c).Success?
    ensures var e := Decode(fields, c).value;
            && e.errorCode == (if |fields| > 3 then c.stripQuotes(fields[3]) else Some(""))
            && e.message == (if |fields| > 4 then c.stripQuotes(fields[4]) else Some(""))
            && e.hint == (if |fields| > 5 then c.stripQuotes(fields[5]) else Some(""))
            && e.detail == (if |fields| > 6 then c.stripQuotes(fields[6]) else Some(""))
  {
  }

  /**
   * Embedded errors win over synthesis: an array is returned as it is, any
   * other JSON value as a one-element array, whatever the status.
   */
  lemma EmbeddedErrorsAreUsed(errorsStr: string, status: Option<string>, errorCode: Option<string>,
                              message: Option<string>, detail: Option<string>, c: Collaborators, e: Json)
    requires c.stripQuotes(errorsStr).Some? && Trim(c.stripQuotes(errorsStr).value) != []
    requires c.parseString(CleanedErrorsText(c.stripQuotes(errorsStr).value)) == Some(e)
    ensures e.JArray? ==> RecoverErrors(errorsStr, status, errorCode, message, detail, c) == Success(e)
    ensures !e.JArray? ==> RecoverErrors(errorsStr, status, errorCode, message, detail, c) == Success(JArray([e]))
  {
  }

  /**
   * A null or blank errors field, or one the JSON reader rejects, does not
   * abort: a failure status falls through to the synthesised error.
   */
  lemma UnreadableErrorsFallBack(errorsStr: string, status: Option<string>, errorCode: Option<string>,
                                 message: Option<string>, detail: Option<string>, c: Collaborators)
    requires !IsOk(status)
    requires var cleaned := c.stripQuotes(errorsStr);
             cleaned.None? || Trim(cleaned.value) == [] || c.parseString(CleanedErrorsText(cleaned.value)).None?
    ensures RecoverErrors(errorsStr, status, errorCode, message, detail, c)
            == SynthesizedErrors(errorCode, message, detail, c)
  {
    assert EmbeddedErrors(errorsStr, c).None?;
  }

  /**
   * The empty-array default is never produced for a failure status: the only
   * way to an empty array is an embedded empty array.
   */
  lemma NoDefaultForFailure(errorsStr: string, status: Option<string>, errorCode: Option<string>,
                            message: Option<string>, detail: Option<string>, c: Collaborators)
    requires !IsOk(status)
    requires EmbeddedErrors(errorsStr, c) != Some(JArray([]))
    ensures RecoverErrors(errorsStr, status, errorCode, message, detail, c) != Success(JArray([]))
  {
  }

  /**
   * Unescaping recovers the producer's JSON text: if the unquoted field is a
   * JSON array or object text `j`, optionally wrapped in one more quote layer,
   * with its quotes doubled once more, the text handed to the reader is `j`.
   */
  lemma {:induction false} CleanedTextRecoversJson(j: string, wrapped: bool)
    requires |j| >= 2
    requires (j[0] == '[' && j[|j| - 1] == ']') || (j[0] == '{' && j[|j| - 1] == '}')
    ensures CleanedErrorsText(Doubled(if wrapped then ['"'] + j + ['"'] else j, '"')) == j
  {
    var layered := if wrapped then ['"'] + j + ['"'] else j;
    UndoubledDoubled(layered, '"');
    assert Undoubled(Doubled(layered, '"'), '"') == layered;
    if !wrapped {
      assert !StartsWith(j, "\"[") && !StartsWith(j, "\"{") by {
        assert j[..2][0] == j[0];
      }
    } else {
      assert layered[1..|layered| - 1] == j;
      assert layered[..2] == ['"', j[0]];
      assert layered[|layered| - 2..] == [j[|j| - 1], '"'];
    }
  }

  // ---------------------------------------------------------------------------
  // The synthesised error, given a JSON reader that reads simple objects
  // ---------------------------------------------------------------------------

  /** Text that a JSON string literal holds verbatim: no backslash, no control character. */
  predicate PlainText(s: string) {
    forall i :: 0 <= i < |s| ==> s[i] != '\\' && s[i] >= ' '
  }

  /**
   * What the synthesis needs of Gson: the object text with plain, quote-free
   * type and code and a plain message with escaped quotes reads back as that
   * object.
   */
  ghost predicate ReadsErrorObjects(parse: string -> Option<Json>) {
    forall ty: string, code: string, msg: string
      {:trigger ErrorObjectText(ty, code, EscapeQuotes(msg))} ::
      PlainText(ty) && Avoids(ty, {'"'}) && PlainText(code) && Avoids(code, {'"'}) && PlainText(msg)
      ==> parse(ErrorObjectText(ty, code, EscapeQuotes(msg))) == Some(ErrorObject(ty, code, msg))
  }

  lemma {:induction false} UndoubledPlain(s: string, q: char)
    requires PlainText(s) && q != '\\' && q >= ' '
    ensures PlainText(Undoubled(s, q))
  {
    if |s| >= 2 && s[0] == q && s[1] == q {
      UndoubledPlain(s[2..], q);
    } else if s != [] {
      UndoubledPlain(s[1..], q);
    }
  }

  /**
   * With such a reader and plain diagnostic fields, the synthesised errors are
   * exactly one object {type, code, message}: the type classified from the code,
   * the code itself (or ""), and message and detail joined by ": ".
   */
  lemma SynthesizedErrorContent(errorCode: Option<string>, message: Option<string>, detail: Option<string>,
                                c: Collaborators)
    requires ReadsErrorObjects(c.parseString)
    requires PlainText(ReportedCode(errorCode)) && Avoids(ReportedCode(errorCode), {'"'})
    requires PlainText(Cleaned(message)) && PlainText(Cleaned(detail))
    ensures SynthesizedErrors(errorCode, message, detail, c)
            == Success(JArray([ErrorObject(ErrorType(errorCode), ReportedCode(errorCode),
                                           SynthesizedMessage(message, detail))]))
  {
    var ty := ErrorType(errorCode);
    var msg := SynthesizedMessage(message, detail);
    ErrorTypePlain(errorCode);
    SynthesizedMessagePlain(message, detail);
    assert c.parseString(ErrorObjectText(ty, ReportedCode(errorCode), EscapeQuotes(msg)))
        == Some(ErrorObject(ty, ReportedCode(errorCode), msg));
  }

  lemma ErrorTypePlain(code: Option<string>)
    ensures PlainText(ErrorType(code)) && Avoids(ErrorType(code), {'"'})
  {
  }

  lemma SynthesizedMessagePlain(message: Option<string>, detail: Option<string>)
    requires PlainText(Cleaned(message)) && PlainText(Cleaned(detail))
    ensures PlainText(SynthesizedMessage(message, detail))
  {
    var sep := if Cleaned(message) != [] && Cleaned(detail) != [] then ": " else "";
    assert PlainText(sep);
    assert SynthesizedMessage(message, detail) == Cleaned(message) + sep + Cleaned(detail);
  }

  /** Plain diagnostic fields stay plain once their doubled quotes are undone. */
  lemma CleanedPlain(s: Option<string>)
    requires s.Some? ==> PlainText(s.value)
    ensures PlainText(Cleaned(s))
  {
    if s.Some? {
      UndoubledPlain(s.value, '"');
    }
  }

  lemma ExampleTextsArePlain()
    ensures PlainText("duplicate key") && Avoids("duplicate key", {'"'})
    ensures PlainText("Key (id)=(1) already exists.") && Avoids("Key (id)=(1) already exists.", {'"'})
    ensures PlainText("23505") && Avoids("23505", {'"'})
  {
  }

  lemma UndoubledQuoteFree(s: string, q: char)
    ensures Avoids(s, {q}) ==> Undoubled(s, q) == s
  {
    if Avoids(s, {q}) {
      UndoubledNoPair(s, q);
    }
  }

  /**
   * A unique-violation failure (SQLSTATE 23505) with message and detail and no
   * embedded errors: the single error is a constraint error whose message joins
   * the two with ": ".
   */
  lemma UniqueViolationExample(c: Collaborators)
    requires c.stripQuotes("ERROR") == Some("ERROR")
    requires c.stripQuotes("") == None
    requires c.stripQuotes("\"\"") == Some("")
    requires c.stripQuotes("23505") == Some("23505")
    requires c.stripQuotes("\"duplicate key\"") == Some("duplicate key")
    requires c.stripQuotes("\"Key (id)=(1) already exists.\"") == Some("Key (id)=(1) already exists.")
    requires ReadsErrorObjects(c.parseString)
    ensures var fields := ["ERROR", "", "\"\"", "23505", "\"duplicate key\"", "\"\"",
                           "\"Key (id)=(1) already exists.\""];
            Decode(fields, c)
            == Success(Envelope(Some("ERROR"), None,
                                Some(JArray([ErrorObject("constraint", "23505",
                                                         "duplicate key" + ": " + "Key (id)=(1) already exists.")])),
                                Some("23505"), Some("duplicate key"), Some(""),
                                Some("Key (id)=(1) already exists.")))
  {
    var fields := ["ERROR", "", "\"\"", "23505", "\"duplicate key\"", "\"\"",
                   "\"Key (id)=(1) already exists.\""];
    var m := "duplicate key";
    var d := "Key (id)=(1) already exists.";
    assert !IsOk(Some("ERROR")) by {
      assert |LowerAll(OkName)| != |LowerAll("ERROR")|;
    }
    assert DiagnosticField(fields, 3, c) == Some("23505");
    assert DiagnosticField(fields, 4, c) == Some(m);
    assert DiagnosticField(fields, 5, c) == Some("");
    assert DiagnosticField(fields, 6, c) == Some(d);
    assert EmbeddedErrors(fields[2], c) == None by {
      assert Trim("") == [];
    }
    ExampleTextsArePlain();
    UndoubledQuoteFree(m, '"');
    UndoubledQuoteFree(d, '"');
    assert SynthesizedMessage(Some(m), Some(d)) == m + ": " + d;
    assert ErrorType(Some("23505")) == "constraint";
    SynthesizedErrorContent(Some("23505"), Some(m), Some(d), c);
  }

  // ---------------------------------------------------------------------------
  // The response object
  // ---------------------------------------------------------------------------

  /** A response object: the Java class with its seven fields, setters and parseErrors. */
  class PgsqlExecResponse {
    var status: Option<string>
    var data: Option<Json>
    var errors: Option<Json>
    var errorCode: Option<string>
    var message: Option<string>
    var hint: Option<string>
    var detail: Option<string>

    /** The fields, read as one envelope value. */
    function Snapshot(): Envelope
      reads this
    {
      Envelope(status, data, errors, errorCode, message, hint, detail)
    }

    /** The no-argument constructor: every field null. */
    constructor ()
      ensures Snapshot() == Envelope(None, None, None, None, None, None, None)
    {
      status, data, errors := None, None, None;
      errorCode, message, hint, detail := None, None, None, None;
    }

    /**
     * The constructor from a database result, from the tokenised fields on:
     * the fields are assigned in the order the Java constructor assigns them,
     * and the response is the envelope `Decode` describes.
     */
    static method FromFields(fields: seq<string>, c: Collaborators) returns (r: Result<PgsqlExecResponse, DecodeError>)
      ensures r.Failure? ==> Decode(fields, c) == Failure(r.error)
      ensures r.Success? ==> fresh(r.value) && Decode(fields, c) == Success(r.value.Snapshot())
    {
      if |fields| < 1 {
        return Failure(InsufficientFields);
      }
      var resp := new PgsqlExecResponse();
      resp.status := c.stripQuotes(fields[0]);
      if IsOk(resp.status) {
        resp.data := if |fields| > 1 then c.parseJson(fields[1]) else None;
        resp.errors := None;
      } else {
        resp.data := None;
        resp.errorCode := DiagnosticField(fields, 3, c);
        resp.message := DiagnosticField(fields, 4, c);
        resp.hint := DiagnosticField(fields, 5, c);
        resp.detail := DiagnosticField(fields, 6, c);
        var errorsStr := if |fields| > 2 then fields[2] else "";
        var parsed := resp.ParseErrors(errorsStr, c);
        if parsed.Failure? {
          return Failure(parsed.error);
        }
        resp.errors := Some(parsed.value);
      }
      if IsOk(resp.status) {
        resp.errorCode := DiagnosticField(fields, 3, c);
        resp.message := DiagnosticField(fields, 4, c);
        resp.hint := DiagnosticField(fields, 5, c);
        resp.detail := DiagnosticField(fields, 6, c);
      }
      return Success(resp);
    }

    /**
     * parseErrors, reading the status and diagnostic fields of this response:
     * the errors `RecoverErrors` describes.
     */
    method ParseErrors(errorsStr: string, c: Collaborators) returns (r: Result<Json, DecodeError>)
      ensures r == RecoverErrors(errorsStr, status, errorCode, message, detail, c)
    {
      var embedded := EmbeddedErrors(errorsStr, c);
      if embedded.Some? {
        return Success(embedded.value);
      }
      if !IsOk(status) {
        r := SynthesizeError(c);
        return;
      }
      return Success(JArray([]));
    }

    /**
     * The fallback branch of parseErrors: one error object built from this
     * response's error code, message and detail.
     */
    method SynthesizeError(c: Collaborators) returns (r: Result<Json, DecodeError>)
      ensures r == SynthesizedErrors(errorCode, message, detail, c)
    {
      var errorType := ErrorType(errorCode);
      var errorMessage := BuildMessage();
      var finalMessage := EscapeQuotes(errorMessage);
      var code := if errorCode.Some? then errorCode.value else "";
      var errorObj := c.parseString(ErrorObjectText(errorType, code, finalMessage));
      if errorObj.None? {
        return Failure(MalformedErrorObject);
      }
      return Success(JArray([errorObj.value]));
    }

    /** The StringBuilder steps: the un-doubled message, then ": " and the un-doubled detail. */
    method BuildMessage() returns (errorMessage: string)
      ensures errorMessage == SynthesizedMessage(message, detail)
    {
      errorMessage := "";
      if message.Some? && message.value != [] {
        errorMessage := errorMessage + Undoubled(message.value, '"');
      }
      if detail.Some? && detail.value != [] {
        if |errorMessage| > 0 {
          errorMessage := errorMessage + ": ";
        }
        errorMessage := errorMessage + Undoubled(detail.value, '"');
      }
    }

    method SetStatus(s: Option<string>)
      modifies this
      ensures Snapshot() == old(Snapshot()).(status := s)
    {
      status := s;
    }

    method SetData(d: Option<Json>)
      modifies this
      ensures Snapshot() == old(Snapshot()).(data := d)
    {
      data := d;
    }

    method SetErrors(e: Option<Json>)
      modifies this
      ensures Snapshot() == old(Snapshot()).(errors := e)
    {
      errors := e;
    }

    method SetErrorCode(s: Option<string>)
      modifies this
      ensures Snapshot() == old(Snapshot()).(errorCode := s)
    {
      errorCode := s;
    }

    method SetMessage(s: Option<string>)
      modifies this
      ensures Snapshot() == old(Snapshot()).(message := s)
    {
      message := s;
    }

    method SetHint(s: Option<string>)
      modifies this
      ensures Snapshot() == old(Snapshot()).(hint := s)
    {
      hint := s;
    }

    method SetDetail(s: Option<string>)
      modifies this
      ensures Snapshot() == old(Snapshot()).(detail := s)
    {
      detail := s;
    }
  }
}

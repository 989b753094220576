# norpac-commons text utilities and PostgreSQL response envelope, in Dafny

This project models two classes of the norpac-commons Java library and proves properties of the model.

- **PgsqlExecResponse** decodes the composite value that a PostgreSQL function returns into a response envelope. The seven positional fields are status, data, errors, errorCode, message, hint and detail.
  - A status equal to `OK` (ignoring case) gives a success envelope carrying the parsed data.
  - Any other status gives a failure envelope. Its errors come from the errors field when that field holds JSON. Otherwise they are synthesised from the diagnostic fields as one `{type, code, message}` object, with the type taken from the SQLSTATE code.
  - `PgsqlExec.Decode` is the decoding as a function of the field list. `PgsqlExec.PgsqlExecResponse` is the object with its seven fields, its setters and `parseErrors`, proved against that function.
- **TextUtils** holds the string helpers:
  - SQL quote escaping
  - foreign-key name stripping
  - blank-to-null trimming and boolean parsing
  - camelCase, snake_case and kebab-case conversion
  - short class names
  - getter and setter names
  - query strings
  - the text after the last delimiter
  - class names from delimited words

  Where the Java code runs a loop it becomes a Dafny `method` with a `while`/`for` loop. Each such method is proved equal to a specification function, and the properties are proved as lemmas about that function.

Modules:

| file | module | what |
|---|---|---|
| `wrappers.dfy` | `Wrappers` | `Option` for Java `null`, `Result` for an exception that escapes |
| `json.dfy` | `Json` | the JSON tree (Gson's `JsonElement`) |
| `strings.dfy` | `Strings` | the `java.lang.String` operations the two classes use, restricted to ASCII case mapping |
| `pgsql_exec_response.dfy` | `PgsqlExec` | the envelope decoder and the response class |
| `text_utils.dfy` | `TextUtils` | the string helpers |

The decoder's collaborators are parameters (`PgsqlExec.Collaborators`), and nothing is assumed about them except where a lemma's `requires` says so. They are:
- the composite-literal tokenizer (`ParseUtils.parse`);
- the quote stripper (`ParseUtils.stripQuotes`);
- the data reader (`ParseUtils.parseJson`);
- Gson's `JsonParser.parseString`.

The JDBC `ResultSet` read and the logging are left out.

## Model

Source paths are relative to the repository root.

| member | source | states |
|---|---|---|
| PgsqlExec.Decode | src/main/java/com/norpactech/nc/api/utils/PgsqlExecResponse.java:37-67 | an empty field list, and only that, fails with "insufficient fields"; a decoded envelope's status is the unquoted field 0, and it keeps the envelope invariant (a success carries no errors; a failure carries no data and an errors value that is a JSON array) |
| PgsqlExec.DecodeText | src/main/java/com/norpactech/nc/api/utils/PgsqlExecResponse.java:37-41 | a literal the tokenizer rejects fails, and only such a literal fails that way; otherwise the result is the decoding of the tokenised fields |
| PgsqlExec.IsOk | src/main/java/com/norpactech/nc/api/utils/PgsqlExecResponse.java:43-62 | the status counts as OK exactly when it is "OK", "Ok", "oK" or "ok"; null never does |
| PgsqlExec.DiagnosticField | src/main/java/com/norpactech/nc/api/utils/PgsqlExecResponse.java:51-54 | a diagnostic field inside the list is the unquoted field; one past the end is "" rather than null |
| PgsqlExec.OkStatusCarriesData | src/main/java/com/norpactech/nc/api/utils/PgsqlExecResponse.java:43-46 | with an OK status (any case) decoding succeeds; data is field 1 read as JSON (null when absent) and errors are null |
| PgsqlExec.OtherStatusCarriesErrors | src/main/java/com/norpactech/nc/api/utils/PgsqlExecResponse.java:47-59 | with any other status, data is null and errors are what parseErrors recovers from field 2 (or ""), given the unquoted diagnostic fields; a failure of that recovery is the constructor's failure |
| PgsqlExec.DiagnosticsByPosition | src/main/java/com/norpactech/nc/api/utils/PgsqlExecResponse.java:51-54 | whatever the status, errorCode, message, hint and detail are the unquoted fields 3 to 6, or "" past the end of the list |
| PgsqlExec.AsArray | src/main/java/com/norpactech/nc/api/utils/PgsqlExecResponse.java:87-99 | the parsed errors value becomes an array: an array is kept, any other value is wrapped as a one-element array |
| PgsqlExec.HasQuoteLayer | src/main/java/com/norpactech/nc/api/utils/PgsqlExecResponse.java:80-81 | a quote layer around a JSON array or object text needs at least two characters |
| PgsqlExec.PeelQuoteLayer | src/main/java/com/norpactech/nc/api/utils/PgsqlExecResponse.java:80-83 | the text changes exactly when it has a quote layer, and then only its first and last characters are dropped |
| PgsqlExec.PeelQuoteLayerShape | src/main/java/com/norpactech/nc/api/utils/PgsqlExecResponse.java:80-83 | text without a quote layer is kept; text with one is the peeled text between two quotes, and the peeled text is an array or object text (bracket first and last) |
| PgsqlExec.EmbeddedErrors | src/main/java/com/norpactech/nc/api/utils/PgsqlExecResponse.java:71-104 | errors read from the errors field are always a JSON array |
| PgsqlExec.EmbeddedErrorsAreUsed | src/main/java/com/norpactech/nc/api/utils/PgsqlExecResponse.java:74-99 | when the unquoted errors field is non-blank and its cleaned text parses, the result is that array, or the value wrapped in a one-element array, whatever the status |
| PgsqlExec.UnreadableErrorsFallBack | src/main/java/com/norpactech/nc/api/utils/PgsqlExecResponse.java:74-108 | a null, blank or unparsable errors field does not abort: with a failure status the result is the synthesised error |
| PgsqlExec.NoDefaultForFailure | src/main/java/com/norpactech/nc/api/utils/PgsqlExecResponse.java:108-150 | with a failure status the empty-array default is never returned unless the errors field itself held an empty array |
| PgsqlExec.CleanedTextRecoversJson | src/main/java/com/norpactech/nc/api/utils/PgsqlExecResponse.java:78-83 | un-doubling the quotes and peeling one quote layer gives back the producer's array or object text, whether or not it was wrapped in a quote layer |
| PgsqlExec.RecoverErrors | src/main/java/com/norpactech/nc/api/utils/PgsqlExecResponse.java:70-151 | parseErrors' result, when it has one, is a JSON array |
| PgsqlExec.ErrorType | src/main/java/com/norpactech/nc/api/utils/PgsqlExecResponse.java:112-117 | "validation" exactly for 23514, "constraint" exactly for 23502, 23503 and 23505, "database" exactly for every other code and for null |
| PgsqlExec.SynthesizedErrors | src/main/java/com/norpactech/nc/api/utils/PgsqlExecResponse.java:109-147 | the synthesised errors are a one-element array; the only way the synthesis fails is an error object that does not parse |
| PgsqlExec.SynthesizedErrorContent | src/main/java/com/norpactech/nc/api/utils/PgsqlExecResponse.java:109-147 | given a JSON reader that reads simple objects, and plain diagnostic text, the synthesised errors are exactly the object {type from the code, the code or "", message and detail un-doubled and joined by ": "} |
| PgsqlExec.SynthesizedMessage | src/main/java/com/norpactech/nc/api/utils/PgsqlExecResponse.java:120-133 | the message starts with the cleaned message and ends with the cleaned detail; ": " separates them exactly when both are non-empty, and nothing else is added |
| PgsqlExec.EscapeQuotes | src/main/java/com/norpactech/nc/api/utils/PgsqlExecResponse.java:136 | one backslash is added per quote, every quote of the result is preceded by a backslash, and removing the backslashes gives back text that had none |
| PgsqlExec.EscapedQuotes | src/main/java/com/norpactech/nc/api/utils/PgsqlExecResponse.java:136 | the same three facts about replacing each quote by backslash-quote, by induction on the text |
| PgsqlExec.ErrorObjectText | src/main/java/com/norpactech/nc/api/utils/PgsqlExecResponse.java:138-143 | the object text is the type key, the type, the code key, the code, the message key, the message and a closing quote and brace, in that order: each value and each fixed key text sits at its stated position, and the fixed texts add 39 characters |
| PgsqlExec.CleanedErrorsText | src/main/java/com/norpactech/nc/api/utils/PgsqlExecResponse.java:78-83 | the text handed to the JSON reader is never longer than the unquoted errors field, and quote-free text is handed over unchanged |
| PgsqlExec.Cleaned | src/main/java/com/norpactech/nc/api/utils/PgsqlExecResponse.java:121-132 | a cleaned diagnostic field is empty exactly when the field is null or empty; it is never longer than the field, and quote-free text is kept |
| PgsqlExec.ReportedCode | src/main/java/com/norpactech/nc/api/utils/PgsqlExecResponse.java:141 | the reported code is the error code, or "" when it is null |
| PgsqlExec.PgsqlExecResponse.BuildMessage | src/main/java/com/norpactech/nc/api/utils/PgsqlExecResponse.java:120-133 | the StringBuilder steps build exactly SynthesizedMessage of the object's message and detail |
| PgsqlExec.ErrorTypePlain | src/main/java/com/norpactech/nc/api/utils/PgsqlExecResponse.java:112-117 | the error type is plain, quote-free text |
| PgsqlExec.SynthesizedMessagePlain | src/main/java/com/norpactech/nc/api/utils/PgsqlExecResponse.java:120-133 | joining plain message and detail text gives plain text |
| PgsqlExec.CleanedPlain | src/main/java/com/norpactech/nc/api/utils/PgsqlExecResponse.java:121-132 | the cleaned message or detail is plain when the field is plain or null |
| PgsqlExec.UndoubledPlain | src/main/java/com/norpactech/nc/api/utils/PgsqlExecResponse.java:121-132 | replacing doubled quotes adds no backslash or control character |
| PgsqlExec.UndoubledQuoteFree | src/main/java/com/norpactech/nc/api/utils/PgsqlExecResponse.java:121-132 | text without quotes is unchanged by the replacement of doubled quotes |
| PgsqlExec.ExampleTextsArePlain | src/main/java/com/norpactech/nc/api/utils/PgsqlExecResponse.java:138-143 | the texts of the unique-violation example are plain and quote-free |
| PgsqlExec.UniqueViolationExample | src/main/java/com/norpactech/nc/api/utils/PgsqlExecResponse.java:27-151 | a 23505 failure with no embedded errors decodes to a failure envelope with one constraint error whose message is "duplicate key: Key (id)=(1) already exists.", with the diagnostic fields kept |
| PgsqlExec.PgsqlExecResponse.constructor | src/main/java/com/norpactech/nc/api/utils/PgsqlExecResponse.java:25 | the no-argument constructor leaves all seven fields null |
| PgsqlExec.PgsqlExecResponse.FromFields | src/main/java/com/norpactech/nc/api/utils/PgsqlExecResponse.java:37-68 | the field-list constructor fails exactly as Decode fails, and otherwise builds a fresh object whose fields are Decode's envelope |
| PgsqlExec.PgsqlExecResponse.ParseErrors | src/main/java/com/norpactech/nc/api/utils/PgsqlExecResponse.java:70-151 | the method returns RecoverErrors of the errors field and the object's status and diagnostic fields |
| PgsqlExec.PgsqlExecResponse.SynthesizeError | src/main/java/com/norpactech/nc/api/utils/PgsqlExecResponse.java:108-147 | the synthesis branch returns SynthesizedErrors of the object's errorCode, message and detail |
| PgsqlExec.PgsqlExecResponse.SetStatus | src/main/java/com/norpactech/nc/api/utils/PgsqlExecResponse.java:156-158 | status becomes the argument; the other six fields are unchanged |
| PgsqlExec.PgsqlExecResponse.SetData | src/main/java/com/norpactech/nc/api/utils/PgsqlExecResponse.java:162-164 | data becomes the argument; the other fields are unchanged |
| PgsqlExec.PgsqlExecResponse.SetErrors | src/main/java/com/norpactech/nc/api/utils/PgsqlExecResponse.java:168-170 | errors becomes the argument; the other fields are unchanged |
| PgsqlExec.PgsqlExecResponse.SetErrorCode | src/main/java/com/norpactech/nc/api/utils/PgsqlExecResponse.java:174-176 | errorCode becomes the argument; the other fields are unchanged |
| PgsqlExec.PgsqlExecResponse.SetMessage | src/main/java/com/norpactech/nc/api/utils/PgsqlExecResponse.java:180-182 | message becomes the argument; the other fields are unchanged |
| PgsqlExec.PgsqlExecResponse.SetHint | src/main/java/com/norpactech/nc/api/utils/PgsqlExecResponse.java:186-188 | hint becomes the argument; the other fields are unchanged |
| PgsqlExec.PgsqlExecResponse.SetDetail | src/main/java/com/norpactech/nc/api/utils/PgsqlExecResponse.java:192-194 | detail becomes the argument; the other fields are unchanged |
| TextUtils.EscapeSql | src/main/java/com/norpactech/nc/utils/TextUtils.java:30-46 | null stays null; otherwise the result is the text with every single quote doubled |
| TextUtils.EscapedKeepsOthers | src/main/java/com/norpactech/nc/utils/TextUtils.java:37-44 | escaping keeps every character other than the quote, in order |
| Strings.UndoubledDoubled | src/main/java/com/norpactech/nc/utils/TextUtils.java:37-44 | replacing doubled quotes by single ones undoes the escaping |
| Strings.DoubledLength | src/main/java/com/norpactech/nc/utils/TextUtils.java:37-44 | escaping adds one character per quote |
| Strings.UndoubledNoPair | src/main/java/com/norpactech/nc/api/utils/PgsqlExecResponse.java:78 | text with no doubled quote is unchanged by the replacement |
| Strings.Undoubled | src/main/java/com/norpactech/nc/api/utils/PgsqlExecResponse.java:78 | the replacement never lengthens the text and keeps non-empty text non-empty |
| TextUtils.FkName | src/main/java/com/norpactech/nc/utils/TextUtils.java:78-89 | null iff null, and the result is never longer than the name |
| TextUtils.FkNameDropsPrefix | src/main/java/com/norpactech/nc/utils/TextUtils.java:85-87 | the "id_" prefix is removed and the rest is kept as it is, untrimmed |
| TextUtils.FkNameTrimsOthers | src/main/java/com/norpactech/nc/utils/TextUtils.java:84 | a name without the prefix comes back trimmed |
| TextUtils.FkNameChecksUntrimmed | src/main/java/com/norpactech/nc/utils/TextUtils.java:84-87 | the prefix is looked for before trimming: " id_user" gives "id_user" |
| TextUtils.ToString | src/main/java/com/norpactech/nc/utils/TextUtils.java:98-104 | null exactly for null or blank text; otherwise exactly Trim of the text, which is trimmed and no longer than the input |
| TextUtils.ToStringKeepsTrimmed | src/main/java/com/norpactech/nc/utils/TextUtils.java:103 | non-blank text with nothing to trim comes back unchanged |
| TextUtils.ToStringControlOnly | src/main/java/com/norpactech/nc/utils/TextUtils.java:100-103 | a control character that is not whitespace is not blank, yet trims to "" |
| Strings.Trim | src/main/java/com/norpactech/nc/utils/TextUtils.java:103 | the result is the slice of the input between a prefix and a suffix made only of characters at or below a space; it has no such character at either end, and trimmed text is kept |
| Strings.TrimStart | src/main/java/com/norpactech/nc/utils/TextUtils.java:103 | the result is a suffix that is empty or starts with a character above a space, and only characters at or below a space were removed |
| Strings.TrimEnd | src/main/java/com/norpactech/nc/utils/TextUtils.java:103 | the result is a prefix that is empty or ends with a character above a space, and only characters at or below a space were removed |
| Strings.IsWhitespace | src/main/java/com/norpactech/nc/utils/TextUtils.java:100 | space, tab, line feed and carriage return are whitespace, the non-breaking spaces are not, ASCII whitespace lies at or below a space, and no whitespace is a letter or digit |
| Strings.IsBlank | src/main/java/com/norpactech/nc/utils/TextUtils.java:98-104 | null and empty text are blank; blank text holds no letter or digit |
| Strings.BlankAsciiTrimsAway | src/main/java/com/norpactech/nc/utils/TextUtils.java:98-104 | blank text made only of ASCII characters trims to nothing, so the blank test and trim agree on ASCII input |
| TextUtils.ToBoolean | src/main/java/com/norpactech/nc/utils/TextUtils.java:137-153 | null exactly for null or blank text; true exactly when the lower-cased text is "true"; false exactly when it is "false"; otherwise it fails with "Invalid boolean" and the original text |
| TextUtils.BlankIsNoWord | src/main/java/com/norpactech/nc/utils/TextUtils.java:139-148 | blank text never lower-cases to "true" or "false", so the blank check does not shadow a value |
| TextUtils.ToBooleanRoundTrip | src/main/java/com/norpactech/nc/utils/TextUtils.java:143-149 | "true" and "false" read back as the value they name |
| TextUtils.ToBooleanIgnoresCase | src/main/java/com/norpactech/nc/utils/TextUtils.java:143 | upper-casing the input changes neither whether it parses nor the value |
| TextUtils.ToBooleanDoesNotTrim | src/main/java/com/norpactech/nc/utils/TextUtils.java:143-151 | " true" fails: the text is not trimmed before the comparison |
| TextUtils.ToCamelCase | src/main/java/com/norpactech/nc/utils/TextUtils.java:163-184 | null stays null; otherwise the loop's result is CamelCase of the text (empty text stays empty) |
| TextUtils.CamelCaseNoUnderscore | src/main/java/com/norpactech/nc/utils/TextUtils.java:171-182 | camelCase text holds no underscore |
| TextUtils.CamelCaseLength | src/main/java/com/norpactech/nc/utils/TextUtils.java:171-182 | the result is one character shorter per underscore |
| TextUtils.CamelCaseOnlyChangesCase | src/main/java/com/norpactech/nc/utils/TextUtils.java:171-182 | ignoring case, the result is the text with its underscores removed |
| TextUtils.CamelCaseWithoutUnderscore | src/main/java/com/norpactech/nc/utils/TextUtils.java:171-182 | text without underscores is returned unchanged |
| TextUtils.SeparateHumps | src/main/java/com/norpactech/nc/utils/TextUtils.java:200-213 | the loop both conversions share computes Delimited: each upper-case letter becomes the separator and its lower-case form, and one leading separator is dropped |
| TextUtils.ToSnakeCase | src/main/java/com/norpactech/nc/utils/TextUtils.java:195-214 | null stays null; otherwise the result is SnakeCase of the text |
| TextUtils.ToKebabCase | src/main/java/com/norpactech/nc/utils/TextUtils.java:225-244 | null stays null; otherwise the result is KebabCase of the text |
| TextUtils.DelimitedNoUpper | src/main/java/com/norpactech/nc/utils/TextUtils.java:201-208 | snake_case and kebab-case text holds no upper-case letter |
| TextUtils.SeparatedNoUpper | src/main/java/com/norpactech/nc/utils/TextUtils.java:201-208 | the separated text, before the leading separator is dropped, holds no upper-case letter |
| TextUtils.DelimitedLength | src/main/java/com/norpactech/nc/utils/TextUtils.java:201-212 | one extra character per upper-case letter, less at most the one dropped separator |
| TextUtils.DelimitedLetters | src/main/java/com/norpactech/nc/utils/TextUtils.java:201-212 | with the separators removed, the result is the lower-cased text with its separators removed |
| TextUtils.SeparatedLetters | src/main/java/com/norpactech/nc/utils/TextUtils.java:201-208 | the same for the separated text before the leading separator is dropped |
| TextUtils.SnakeCaseKeepsSecondUnderscore | src/main/java/com/norpactech/nc/utils/TextUtils.java:210-212 | only one leading separator is dropped: "_A" gives "_a" |
| TextUtils.SeparatedEndsUnseparated | src/main/java/com/norpactech/nc/utils/TextUtils.java:201-208 | separated text of input without the separator never ends with a separator |
| TextUtils.CamelOfSnake | src/main/java/com/norpactech/nc/utils/TextUtils.java:163-214 | toCamelCase undoes toSnakeCase for text without underscores that does not start upper-case |
| TextUtils.SeparatedCamel | src/main/java/com/norpactech/nc/utils/TextUtils.java:171-208 | camelCase of the separated text gives back text that has no underscores |
| TextUtils.DelimitedKeepsStart | src/main/java/com/norpactech/nc/utils/TextUtils.java:210-212 | nothing is dropped when the text starts with neither a separator nor an upper-case letter |
| TextUtils.ToShortClassName | src/main/java/com/norpactech/nc/utils/TextUtils.java:254-264 | null iff null; the result is a suffix of the name without a dot; the whole name when it has no dot; otherwise the text right after the last dot |
| TextUtils.LastDelimetedValue | src/main/java/com/norpactech/nc/utils/TextUtils.java:331-333 | fails exactly for an empty delimiter; when the delimiter occurs, the text from one character after the start of its last occurrence (as LastIndexOfString finds it); the whole text when it does not occur |
| TextUtils.LastDelimetedValueDot | src/main/java/com/norpactech/nc/utils/TextUtils.java:331-333 | with "." as delimiter it agrees with toShortClassName |
| TextUtils.LastDelimetedValueKeepsDelimiterTail | src/main/java/com/norpactech/nc/utils/TextUtils.java:332 | as written, ("a::b", "::") gives ":b" |
| TextUtils.ValueAfterLastDelimiter | src/main/java/com/norpactech/nc/utils/TextUtils.java:322-333 | corrected: fails exactly for an empty delimiter; when the delimiter occurs, the text after the whole of its last occurrence, which holds no occurrence of the delimiter; the whole text when it does not occur |
| TextUtils.ValueAfterLastDelimiterAgrees | src/main/java/com/norpactech/nc/utils/TextUtils.java:331-333 | for a one-character delimiter the corrected and the written cut agree |
| Strings.LastIndexOf | src/main/java/com/norpactech/nc/utils/TextUtils.java:259 | the index of the last occurrence of the character, or -1 when there is none |
| Strings.LastIndexOfString | src/main/java/com/norpactech/nc/utils/TextUtils.java:332 | the start of the last occurrence of the delimiter, or -1 when there is none |
| TextUtils.AccessorName | src/main/java/com/norpactech/nc/utils/TextUtils.java:274-296 | null iff null; an empty name is returned unchanged; a non-empty name gives the prefix, then its first character upper-cased, then the rest of the name unchanged |
| TextUtils.ToGetter | src/main/java/com/norpactech/nc/utils/TextUtils.java:274-280 | null iff null; an empty name is returned unchanged; otherwise "get", the first character upper-cased, then the rest of the name |
| TextUtils.ToSetter | src/main/java/com/norpactech/nc/utils/TextUtils.java:290-296 | null iff null; an empty name is returned unchanged; otherwise "set", the first character upper-cased, then the rest of the name |
| TextUtils.AccessorRoundTrip | src/main/java/com/norpactech/nc/utils/TextUtils.java:274-296 | a name that does not start upper-case is recovered from its getter and from its setter |
| TextUtils.GetterSetterAgree | src/main/java/com/norpactech/nc/utils/TextUtils.java:274-296 | getter and setter differ only in their three-letter prefix |
| TextUtils.ToQueryString | src/main/java/com/norpactech/nc/utils/TextUtils.java:305-320 | the loop's result is QueryString: "" for null or no parameters, otherwise "?" and the key=value pairs joined by "&" |
| TextUtils.TerminatedJoin | src/main/java/com/norpactech/nc/utils/TextUtils.java:310-316 | dropping the last "&" of the appended pairs gives the pairs joined by "&" |
| TextUtils.QueryStringRoundTrip | src/main/java/com/norpactech/nc/utils/TextUtils.java:305-320 | for keys without '&' or '=' and values without '&', reading the query string back gives the parameters in order |
| TextUtils.PairTexts | src/main/java/com/norpactech/nc/utils/TextUtils.java:311-314 | one key=value text per parameter, in order |
| TextUtils.HasDelimiterIff | src/main/java/com/norpactech/nc/utils/TextUtils.java:352 | the delimiter test holds exactly when the text contains '_' or '-' |
| TextUtils.ToClassName | src/main/java/com/norpactech/nc/utils/TextUtils.java:346-372 | null stays null; otherwise the result is ClassName of the text (empty text stays empty) |
| TextUtils.CapitalizeParts | src/main/java/com/norpactech/nc/utils/TextUtils.java:354-364 | the loop over the parts skips empty ones and appends each other part capitalised, in order |
| TextUtils.ClassNameAvoidsDelimiters | src/main/java/com/norpactech/nc/utils/TextUtils.java:346-372 | a class name contains no '_' and no '-' |
| TextUtils.ClassNameStartsUpper | src/main/java/com/norpactech/nc/utils/TextUtils.java:346-372 | a class name never starts with a lower-case letter |
| TextUtils.ClassNameIdempotent | src/main/java/com/norpactech/nc/utils/TextUtils.java:346-372 | converting a class name again changes nothing |
| TextUtils.WordsAppend | src/main/java/com/norpactech/nc/utils/TextUtils.java:353-363 | a delimiter between two texts concatenates their words |
| TextUtils.WordsOfWord | src/main/java/com/norpactech/nc/utils/TextUtils.java:353-363 | text without delimiters is one capitalised word |
| TextUtils.ClassNameOfDelimited | src/main/java/com/norpactech/nc/utils/TextUtils.java:352-364 | text holding a delimiter gets the words on either side of it, capitalised and concatenated |
| TextUtils.ClassNameDelimiterRun | src/main/java/com/norpactech/nc/utils/TextUtils.java:353 | a run of delimiters splits like one delimiter |
| TextUtils.ClassNameOuterDelimiters | src/main/java/com/norpactech/nc/utils/TextUtils.java:353-356 | once the text holds a delimiter, a delimiter added at either end changes nothing |
| TextUtils.ClassNameTwoWords | src/main/java/com/norpactech/nc/utils/TextUtils.java:352-364 | two words joined by either delimiter give both words capitalised, side by side |
| TextUtils.ClassNameUndelimited | src/main/java/com/norpactech/nc/utils/TextUtils.java:367-371 | without a delimiter only the first character is upper-cased and the rest is kept |
| TextUtils.ClassNameUserName | src/test/java/com/norpactech/nc/utils/TextUtilsTest.java:13-30 | "user" and "name" joined by either delimiter give "UserName" |
| TextUtils.ClassNameSnakeExample | src/test/java/com/norpactech/nc/utils/TextUtilsTest.java:13 | "user_name" gives "UserName" |
| TextUtils.ClassNameSingleWordExample | src/test/java/com/norpactech/nc/utils/TextUtilsTest.java:14 | "user" gives "User" |
| TextUtils.ClassNameTrailingExample | src/test/java/com/norpactech/nc/utils/TextUtilsTest.java:15 | "user_name__" gives "UserName" |
| TextUtils.ClassNameLettersExample | src/test/java/com/norpactech/nc/utils/TextUtilsTest.java:16 | "a_b_c" gives "ABC" |
| TextUtils.ClassNameCamelExample | src/test/java/com/norpactech/nc/utils/TextUtilsTest.java:22 | "userName" gives "UserName" |
| TextUtils.ClassNamePascalExample | src/test/java/com/norpactech/nc/utils/TextUtilsTest.java:23 | "UserName" gives "UserName" |
| TextUtils.ClassNameShortExamples | src/test/java/com/norpactech/nc/utils/TextUtilsTest.java:24-37 | "u" gives "U" and "" gives "" |
| TextUtils.ClassNameKebabExample | src/test/java/com/norpactech/nc/utils/TextUtilsTest.java:30 | "user-name" gives "UserName" |
| TextUtils.ClassNameDoubledDashExample | src/test/java/com/norpactech/nc/utils/TextUtilsTest.java:31 | "-user--name-" gives "UserName" |
| Strings.SplitOn | src/main/java/com/norpactech/nc/utils/TextUtils.java:353 | splitting gives at least one part, and no part holds a delimiter |
| Strings.SplitJoin | src/main/java/com/norpactech/nc/utils/TextUtils.java:353 | splitting parts joined by a delimiter gives the parts back |
| Strings.SplitOnAppend | src/main/java/com/norpactech/nc/utils/TextUtils.java:353 | splitting at a delimiter concatenates the splits of the two sides |
| Strings.FirstIndexIn | src/main/java/com/norpactech/nc/utils/TextUtils.java:352 | the first position holding one of the characters, or -1 when none occurs; nothing before it holds one |
| Strings.ToUpper | src/main/java/com/norpactech/nc/utils/TextUtils.java:176 | lower-case letters become upper-case; everything else is unchanged |
| Strings.ToLower | src/main/java/com/norpactech/nc/utils/TextUtils.java:204 | upper-case letters become lower-case; everything else is unchanged |
| Strings.UpperAll | src/main/java/com/norpactech/nc/utils/TextUtils.java:369 | same length, each character upper-cased |
| Strings.LowerAll | src/main/java/com/norpactech/nc/utils/TextUtils.java:143 | same length, each character lower-cased |
| Strings.LowerOfUpper | src/main/java/com/norpactech/nc/utils/TextUtils.java:279 | lower-casing undoes upper-casing of a character that was not upper-case |
| Strings.UpperOfLower | src/main/java/com/norpactech/nc/utils/TextUtils.java:204 | upper-casing undoes lower-casing of a character that was not lower-case |
| Strings.EqualsIgnoreCase | src/main/java/com/norpactech/nc/api/utils/PgsqlExecResponse.java:43 | two texts are equal ignoring case exactly when they have the same length and each pair of characters is equal after lower-casing |

## Left out

- The JDBC read of the result set (`rs.getObject(1).toString()`) and its `SQLException` are not modelled. The decoder starts from the raw literal (`DecodeText`) or from the field list (`Decode`, `FromFields`).
- The logging calls are not modelled, because they change no state the model can see.
- `ParseUtils.parse`, `ParseUtils.stripQuotes` and `ParseUtils.parseJson` are not part of this model, and neither is Gson's `JsonParser.parseString`. They are parameters. Gson's reading of the synthesised object is stated as an assumption on that parameter: `ReadsErrorObjects` appears as a `requires` and is not proved.
- PgsqlExec.SynthesizedErrorContent: the exact content of the synthesised error is proved only for plain text (no backslash and no control character in the code, message or detail). Gson's treatment of escapes in other text is not modelled.
- PgsqlExec.PgsqlExecResponse.ParseErrors: the JSON branch is computed by the function `EmbeddedErrors` and not by statements of its own. Only the synthesis branch is a separate method.
- The Java `try` around the JSON branch catches every exception; the model's only exception there is a failed parse (`None`). `replace` and `substring` cannot throw on those inputs.
- The getters are not modelled as methods: they are reads of the class's fields, and `Snapshot` reads all of them.
- `EnumStatus` is not part of this model. Only `EnumStatus.OK.getName()`, taken to be "OK", is used.
- `toUUID` and `toInteger` are not modelled, because they call `UUID.fromString` and `Integer.parseInt`, which are outside the core.
- Case mapping is ASCII only. In Java, `Character.toUpperCase`, `Character.isUpperCase` and `String.equalsIgnoreCase` (the status test) follow Unicode; `String.toLowerCase` and `String.toUpperCase` follow Unicode and the default locale (in a Turkish locale `toGetter("id")` is `"getİd"`). That mapping is not modelled.
- A Dafny `char` is a Unicode scalar value, where Java's `char` is a UTF-16 code unit. Lengths, indices and `substring` positions in the model count code points. A supplementary character that Java sees as two units is one character here, and lone surrogates cannot be represented.
- TextUtils.ToQueryString: the map is a sequence of key/value pairs in iteration order. The order a `Map` iterates in is not modelled, and neither are null keys or values, which Java prints as "null".
- TextUtils.ToClassName: the regular expression `[_\-]+` is modelled as a split at every single delimiter, followed by skipping empty parts. The output is the same, because the loop skips empty parts either way.
- TextUtils.LastDelimetedValue: null arguments (a `NullPointerException` in Java) are not modelled. The empty delimiter, for which `substring` throws, is the `None` result.
- Where the documentation and the code disagree, the model follows the code in two places:
  - The comment on `fkName` says the prefix is removed and the name trimmed. The code does not trim when the prefix is present (`FkNameDropsPrefix`).
  - The comment on `lastDelimetedValue` says it throws when the delimiter is absent. The code returns the whole text instead (`LastDelimetedValue`).
- The other classes of the repository (the configuration loaders, the Cognito and network services, the date and file utilities, the JSON adapters) are not part of this model.

## Findings

| source | as written | input that shows it | evidently intended | confidence | as-written member | corrected member |
|---|---|---|---|---|---|---|
| src/main/java/com/norpactech/nc/utils/TextUtils.java:332 | `substring(lastIndexOf(delimeter) + 1)` skips one character past the start of the last delimiter, whatever the delimiter's length | `lastDelimetedValue("a::b", "::")` gives ":b" | the value after the whole delimiter, "b" | not executed | TextUtils.LastDelimetedValueKeepsDelimiterTail | TextUtils.ValueAfterLastDelimiter |

/**
 * TextUtils: SQL quote escaping, null/blank handling, boolean parsing, case
 * conversion between snake_case, kebab-case, camelCase and class names,
 * accessor names, the last segment of a dotted or delimited name, and query
 * strings. A Java null String is `None`; case mapping is ASCII.
 */
module TextUtils {

  import opened Wrappers
  import opened Strings

  // ---------------------------------------------------------------------------
  // escapeSql
  // ---------------------------------------------------------------------------

  /** Every single quote doubled, every other character copied in order; null stays null. */
  method EscapeSql(sql: Option<string>) returns (r: Option<string>)
    ensures sql.None? ==> r.None?
    ensures sql.Some? ==> r == Some(Doubled(sql.value, '\''))
  {
    if sql.None? {
      return None;
    }
    var s := sql.value;
    var escapedText := "";
    for i := 0 to |s|
      invariant escapedText == Doubled(s[..i], '\'')
    {
      assert s[..i + 1] == s[..i] + [s[i]];
      ReplaceCharAppend(s[..i], s[i], '\'', "''");
      if s[i] == '\'' {
        escapedText := escapedText + "''";
      } else {
        escapedText := escapedText + [s[i]];
      }
    }
    assert s[..|s|] == s;
    return Some(escapedText);
  }

  /** Escaping keeps every character other than the quote, in order. */
  lemma {:induction false} EscapedKeepsOthers(s: string)
    ensures RemoveAll(Doubled(s, '\''), '\'') == RemoveAll(s, '\'')
  {
    if s != [] {
      EscapedKeepsOthers(s[1..]);
      var piece := if s[0] == '\'' then "''" else [s[0]];
      assert Doubled(s, '\'') == piece + Doubled(s[1..], '\'');
      RemoveAllAppend(piece, Doubled(s[1..], '\''), '\'');
    }
  }

  // ---------------------------------------------------------------------------
  // fkName, toString, toBoolean
  // ---------------------------------------------------------------------------

  /**
   * The name with a leading "id_" removed (the rest kept as it is), or the
   * trimmed name when it does not start with "id_"; null stays null.
   */
  function FkName(source: Option<string>): (r: Option<string>)
    ensures r.None? <==> source.None?
    ensures r.Some? ==> |r.value| <= |source.value|
  {
    if source.None? then None
    else
      var retVal := Trim(source.value);
      if StartsWith(source.value, "id_") then Some(source.value[3..]) else Some(retVal)
  }

  /** Removing the prefix undoes adding it; nothing else is trimmed. */
  lemma FkNameDropsPrefix(name: string)
    ensures FkName(Some("id_" + name)) == Some(name)
  {
    assert ("id_" + name)[..3] == "id_";
  }

  /** Without the prefix the result is the trimmed name. */
  lemma FkNameTrimsOthers(source: string)
    requires !StartsWith(source, "id_")
    ensures FkName(Some(source)) == Some(Trim(source))
    ensures IsTrimmed(FkName(Some(source)).value)
  {
  }

  /** The prefix is looked for before trimming: " id_user" keeps it. */
  lemma FkNameChecksUntrimmed()
    ensures FkName(Some(" id_user")) == Some("id_user")
  {
    assert !StartsWith(" id_user", "id_") by {
      assert " id_user"[..3][0] == ' ';
    }
    SpacedNameTrims();
  }

  lemma SpacedNameTrims()
    ensures Trim(" id_user") == "id_user"
  {
    assert TrimStart(" id_user") == "id_user";
    assert TrimEnd("id_user") == "id_user";
  }

  /** null or blank text gives null; any other text is trimmed. */
  function ToString(source: Option<string>): (r: Option<string>)
    ensures r.None? <==> IsBlank(source)
    ensures r.Some? ==> r.value == Trim(source.value)
    ensures r.Some? ==> IsTrimmed(r.value) && |r.value| <= |source.value|
  {
    if IsBlank(source) then None else Some(Trim(source.value))
  }

  /** Non-blank text that has nothing to trim is returned unchanged. */
  lemma ToStringKeepsTrimmed(s: string)
    requires !IsBlank(Some(s)) && IsTrimmed(s)
    ensures ToString(Some(s)) == Some(s)
  {
  }

  /**
   * Blankness and trimming use different character classes: a text of control
   * characters is not blank, so it maps to "" rather than to null.
   */
  lemma ToStringControlOnly()
    ensures ToString(Some("\U{1}")) == Some("")
  {
    assert !IsWhitespace("\U{1}"[0]);
    assert TrimStart("\U{1}") == TrimStart("\U{1}"[1..]);
  }

  /** What toBoolean throws on text other than true or false. */
  datatype BooleanError = InvalidBoolean(source: string)

  /** null or blank gives null; "true" or "false" in any case gives the value; anything else fails. */
  function ToBoolean(source: Option<string>): (r: Result<Option<bool>, BooleanError>)
    ensures r == Success(None) <==> IsBlank(source)
    ensures r == Success(Some(true)) <==> source.Some? && LowerAll(source.value) == "true"
    ensures r == Success(Some(false)) <==> source.Some? && LowerAll(source.value) == "false"
    ensures r.Failure? ==> r.error == InvalidBoolean(source.value)
  {
    if IsBlank(source) then
      if source.Some? then BlankIsNoWord(source.value); Success(None) else Success(None)
    else
      var value := LowerAll(source.value);
      if value == "true" then Success(Some(true))
      else if value == "false" then Success(Some(false))
      else Failure(InvalidBoolean(source.value))
  }

  lemma BlankIsNoWord(s: string)
    requires IsBlank(Some(s))
    ensures LowerAll(s) != "true" && LowerAll(s) != "false"
  {
    if s != [] {
      assert !IsLower(s[0]) && !IsUpper(s[0]);
      assert LowerAll(s)[0] == s[0];
    }
  }

  /** Boolean.toString's output reads back as the same value. */
  lemma ToBooleanRoundTrip(b: bool)
    ensures ToBoolean(Some(if b then "true" else "false")) == Success(Some(b))
  {
    var text := if b then "true" else "false";
    assert !IsWhitespace(text[0]);
    assert LowerAll(text) == text;
  }

  lemma LowerOfUpperAll(s: string)
    ensures LowerAll(UpperAll(s)) == LowerAll(s)
  {
    forall i | 0 <= i < |s| ensures ToLower(ToUpper(s[i])) == ToLower(s[i]) {
    }
  }

  /** Upper-casing the input does not change what toBoolean decides. */
  lemma ToBooleanIgnoresCase(s: string)
    ensures ToBoolean(Some(UpperAll(s))).Success? <==> ToBoolean(Some(s)).Success?
    ensures ToBoolean(Some(s)).Success? ==> ToBoolean(Some(UpperAll(s))) == ToBoolean(Some(s))
  {
    LowerOfUpperAll(s);
    var u := UpperAll(s);
    assert forall i :: 0 <= i < |s| ==> (IsWhitespace(u[i]) <==> IsWhitespace(s[i]));
    assert IsBlank(Some(u)) <==> IsBlank(Some(s));
  }

  /** Nothing is trimmed before the comparison. */
  lemma ToBooleanDoesNotTrim()
    ensures ToBoolean(Some(" true")).Failure?
  {
    assert !IsWhitespace(" true"[1]);
    assert LowerAll(" true")[0] == ' ';
  }

  // ---------------------------------------------------------------------------
  // toCamelCase
  // ---------------------------------------------------------------------------

  /** What the character `ch` after `prefix` contributes to the camelCase text. */
  function CamelStep(prefix: string, ch: char): string {
    if ch == '_' then []
    else if prefix != [] && prefix[|prefix| - 1] == '_' then [ToUpper(ch)]
    else [ch]
  }

  /**
   * snake_case to camelCase: underscores are dropped and the first character
   * after an underscore is upper-cased; everything else is copied.
   */
  function CamelCase(s: string): string {
    if s == [] then [] else CamelCase(s[..|s| - 1]) + CamelStep(s[..|s| - 1], s[|s| - 1])
  }

  lemma CamelCaseSnoc(a: string, x: char)
    ensures CamelCase(a + [x]) == CamelCase(a) + CamelStep(a, x)
  {
    assert (a + [x])[..|a|] == a;
  }

  /** null and empty text are returned unchanged; other text is converted. */
  method ToCamelCase(snakeCase: Option<string>) returns (r: Option<string>)
    ensures snakeCase.None? ==> r.None?
    ensures snakeCase.Some? ==> r == Some(CamelCase(snakeCase.value))
  {
    if snakeCase.None? || snakeCase.value == [] {
      return snakeCase;
    }
    var s := snakeCase.value;
    var camelCase := "";
    var nextCharUpperCase := false;
    for i := 0 to |s|
      invariant camelCase == CamelCase(s[..i])
      invariant nextCharUpperCase <==> (i > 0 && s[i - 1] == '_')
    {
      CamelCaseSnoc(s[..i], s[i]);
      assert s[..i + 1] == s[..i] + [s[i]];
      var c := s[i];
      if c == '_' {
        nextCharUpperCase := true;
      } else {
        if nextCharUpperCase {
          camelCase := camelCase + [ToUpper(c)];
          nextCharUpperCase := false;
        } else {
          camelCase := camelCase + [c];
        }
      }
    }
    assert s[..|s|] == s;
    return Some(camelCase);
  }

  /** camelCase text contains no underscore. */
  lemma {:induction false} CamelCaseNoUnderscore(s: string)
    ensures Avoids(CamelCase(s), {'_'})
  {
    if s != [] {
      CamelCaseNoUnderscore(s[..|s| - 1]);
    }
  }

  lemma {:induction false} CountAppend(a: string, b: string, c: char)
    ensures Count(a + b, c) == Count(a, c) + Count(b, c)
  {
    if a != [] {
      assert (a + b)[1..] == a[1..] + b;
      CountAppend(a[1..], b, c);
    } else {
      assert a + b == b;
    }
  }

  /** One character less for every underscore. */
  lemma {:induction false} CamelCaseLength(s: string)
    ensures |CamelCase(s)| == |s| - Count(s, '_')
  {
    if s != [] {
      var a, x := s[..|s| - 1], s[|s| - 1];
      assert s == a + [x];
      CamelCaseLength(a);
      CountAppend(a, [x], '_');
    }
  }

  lemma LowerAllAppend(a: string, b: string)
    ensures LowerAll(a + b) == LowerAll(a) + LowerAll(b)
  {
  }

  /**
   * Apart from dropping underscores only case changes: lower-cased, the
   * camelCase text is the lower-cased input without its underscores.
   */
  lemma {:induction false} CamelCaseOnlyChangesCase(s: string)
    ensures LowerAll(CamelCase(s)) == LowerAll(RemoveAll(s, '_'))
  {
    if s != [] {
      var a, x := s[..|s| - 1], s[|s| - 1];
      assert s == a + [x];
      CamelCaseOnlyChangesCase(a);
      RemoveAllAppend(a, [x], '_');
      LowerAllAppend(CamelCase(a), CamelStep(a, x));
      LowerAllAppend(RemoveAll(a, '_'), RemoveAll([x], '_'));
      assert RemoveAll([x], '_') == (if x == '_' then [] else [x]);
      if x != '_' {
        assert LowerAll(CamelStep(a, x)) == [ToLower(x)];
      }
    }
  }

  /** Text without underscores is already camelCase. */
  lemma {:induction false} CamelCaseWithoutUnderscore(s: string)
    requires Avoids(s, {'_'})
    ensures CamelCase(s) == s
  {
    if s != [] {
      var a, x := s[..|s| - 1], s[|s| - 1];
      assert s == a + [x];
      assert Avoids(a, {'_'});
      CamelCaseWithoutUnderscore(a);
      assert CamelStep(a, x) == [x] by {
        if a != [] {
          assert a[|a| - 1] == s[|s| - 2];
        }
      }
    }
  }

  // ---------------------------------------------------------------------------
  // toSnakeCase, toKebabCase
  // ---------------------------------------------------------------------------

  /** What `c` contributes: an upper-case letter becomes `sep` and its lower-case form. */
  function HumpPiece(c: char, sep: char): string {
    if IsUpper(c) then [sep, ToLower(c)] else [c]
  }

  /** Every hump separated, before the leading separator is dropped. */
  function Separated(s: string, sep: char): string {
    if s == [] then [] else Separated(s[..|s| - 1], sep) + HumpPiece(s[|s| - 1], sep)
  }

  /** Separated text with one leading separator, if there is one, removed. */
  function Delimited(s: string, sep: char): string {
    var raw := Separated(s, sep);
    if StartsWith(raw, [sep]) then raw[1..] else raw
  }

  function SnakeCase(s: string): string { Delimited(s, '_') }

  function KebabCase(s: string): string { Delimited(s, '-') }

  lemma SeparatedSnoc(a: string, x: char, sep: char)
    ensures Separated(a + [x], sep) == Separated(a, sep) + HumpPiece(x, sep)
  {
    assert (a + [x])[..|a|] == a;
  }

  /** The loop the two conversions share: each hump separated by `sep`, one leading `sep` dropped. */
  method SeparateHumps(camelCase: string, sep: char) returns (r: string)
    ensures r == Delimited(camelCase, sep)
  {
    var out := "";
    for i := 0 to |camelCase|
      invariant out == Separated(camelCase[..i], sep)
    {
      SeparatedSnoc(camelCase[..i], camelCase[i], sep);
      assert camelCase[..i + 1] == camelCase[..i] + [camelCase[i]];
      var c := camelCase[i];
      if IsUpper(c) {
        HumpPieceSplit(out, c, sep);
        out := out + [sep];
        out := out + [ToLower(c)];
      } else {
        out := out + [c];
      }
    }
    assert camelCase[..|camelCase|] == camelCase;
    if StartsWith(out, [sep]) {
      out := out[1..];
    }
    return out;
  }

  lemma HumpPieceSplit(out: string, c: char, sep: char)
    requires IsUpper(c)
    ensures out + HumpPiece(c, sep) == (out + [sep]) + [ToLower(c)]
  {
    assert HumpPiece(c, sep) == [sep] + [ToLower(c)];
    AppendAssoc(out, [sep], [ToLower(c)]);
  }

  /** camelCase to snake_case; null and empty text are returned unchanged. */
  method ToSnakeCase(camelCase: Option<string>) returns (r: Option<string>)
    ensures camelCase.None? ==> r.None?
    ensures camelCase.Some? ==> r == Some(SnakeCase(camelCase.value))
  {
    if camelCase.None? || camelCase.value == [] {
      return camelCase;
    }
    var out := SeparateHumps(camelCase.value, '_');
    return Some(out);
  }

  /** camelCase to kebab-case; null and empty text are returned unchanged. */
  method ToKebabCase(camelCase: Option<string>) returns (r: Option<string>)
    ensures camelCase.None? ==> r.None?
    ensures camelCase.Some? ==> r == Some(KebabCase(camelCase.value))
  {
    if camelCase.None? || camelCase.value == [] {
      return camelCase;
    }
    var out := SeparateHumps(camelCase.value, '-');
    return Some(out);
  }

  /** Separated text holds no upper-case letter. */
  lemma {:induction false} SeparatedNoUpper(s: string, sep: char)
    requires !IsUpper(sep)
    ensures forall i :: 0 <= i < |Separated(s, sep)| ==> !IsUpper(Separated(s, sep)[i])
  {
    if s != [] {
      SeparatedNoUpper(s[..|s| - 1], sep);
    }
  }

  /** snake_case and kebab-case text holds no upper-case letter. */
  lemma DelimitedNoUpper(s: string, sep: char)
    requires !IsUpper(sep)
    ensures forall i :: 0 <= i < |Delimited(s, sep)| ==> !IsUpper(Delimited(s, sep)[i])
  {
    SeparatedNoUpper(s, sep);
  }

  /** The number of upper-case letters. */
  function Uppers(s: string): nat {
    if s == [] then 0 else Uppers(s[..|s| - 1]) + (if IsUpper(s[|s| - 1]) then 1 else 0)
  }

  /**
   * One separator is inserted per upper-case letter, and at most one leading
   * separator is removed.
   */
  lemma {:induction false} DelimitedLength(s: string, sep: char)
    ensures |Separated(s, sep)| == |s| + Uppers(s)
    ensures |Separated(s, sep)| - 1 <= |Delimited(s, sep)| <= |Separated(s, sep)|
  {
    if s != [] {
      DelimitedLength(s[..|s| - 1], sep);
    }
  }

  /**
   * Apart from separators only case changes: without their separators, the
   * output and the lower-cased input are the same text.
   */
  lemma {:induction false} SeparatedLetters(s: string, sep: char)
    requires !IsUpper(sep)
    ensures RemoveAll(Separated(s, sep), sep) == RemoveAll(LowerAll(s), sep)
  {
    if s != [] {
      var a, x := s[..|s| - 1], s[|s| - 1];
      assert s == a + [x];
      SeparatedLetters(a, sep);
      RemoveAllAppend(Separated(a, sep), HumpPiece(x, sep), sep);
      LowerAllAppend(a, [x]);
      RemoveAllAppend(LowerAll(a), LowerAll([x]), sep);
      assert RemoveAll(HumpPiece(x, sep), sep) == RemoveAll(LowerAll([x]), sep) by {
        if IsUpper(x) {
          assert HumpPiece(x, sep) == [sep] + [ToLower(x)];
          RemoveAllAppend([sep], [ToLower(x)], sep);
        }
      }
    }
  }

  lemma DelimitedLetters(s: string, sep: char)
    requires !IsUpper(sep)
    ensures RemoveAll(Delimited(s, sep), sep) == RemoveAll(LowerAll(s), sep)
  {
    SeparatedLetters(s, sep);
    var raw := Separated(s, sep);
    if StartsWith(raw, [sep]) {
      assert raw == [sep] + raw[1..];
      RemoveAllAppend([sep], raw[1..], sep);
    }
  }

  /** Only one leading separator goes: "_A" becomes "_a". */
  lemma SnakeCaseKeepsSecondUnderscore()
    ensures SnakeCase("_A") == "_a"
  {
    var s := "_A";
    assert s[..1] == "_" && s[..0] == [];
    assert Separated("_", '_') == "_";
    SeparatedSnoc("_", 'A', '_');
    assert s == "_" + ['A'];
    assert Separated(s, '_') == "__a";
  }

  lemma SeparatedEndsUnseparated(s: string, sep: char)
    requires Avoids(s, {sep}) && !IsLower(sep)
    ensures Separated(s, sep) == [] || Separated(s, sep)[|Separated(s, sep)| - 1] != sep
  {
    if s != [] {
      var piece := HumpPiece(s[|s| - 1], sep);
      assert piece[|piece| - 1] != sep;
      assert Separated(s, sep)[|Separated(s, sep)| - 1] == piece[|piece| - 1];
    }
  }

  /**
   * camelCase survives a trip through snake_case: converting a name without
   * underscores that does not start upper-case to snake_case and back gives it back.
   */
  lemma {:induction false} CamelOfSnake(x: string)
    requires Avoids(x, {'_'})
    requires x == [] || !IsUpper(x[0])
    ensures CamelCase(SnakeCase(x)) == x
  {
    SeparatedCamel(x);
    if x != [] {
      assert x[0] != '_';
      DelimitedKeepsStart(x, '_');
    }
  }

  /** Nothing is dropped when the text starts with neither a separator nor an upper-case letter. */
  lemma DelimitedKeepsStart(x: string, sep: char)
    requires x != [] && !IsUpper(x[0]) && x[0] != sep
    ensures Delimited(x, sep) == Separated(x, sep)
  {
    SeparatedFirst(x, sep);
    var raw := Separated(x, sep);
    assert raw[..1][0] == raw[0];
  }

  lemma {:induction false} SeparatedFirst(s: string, sep: char)
    requires s != [] && !IsUpper(s[0])
    ensures Separated(s, sep) != [] && Separated(s, sep)[0] == s[0]
  {
    if |s| > 1 {
      var a := s[..|s| - 1];
      SeparatedFirst(a, sep);
    } else {
      assert s[..0] == [];
    }
  }

  lemma CamelOfHump(sa: string, c: char)
    requires IsUpper(c)
    ensures CamelCase((sa + ['_']) + [ToLower(c)]) == CamelCase(sa) + [c]
  {
    CamelCaseSnoc(sa + ['_'], ToLower(c));
    CamelCaseSnoc(sa, '_');
    UpperOfLower(c);
  }

  lemma {:induction false} SeparatedCamel(x: string)
    requires Avoids(x, {'_'})
    ensures CamelCase(Separated(x, '_')) == x
  {
    if x != [] {
      var a, c := x[..|x| - 1], x[|x| - 1];
      assert x == a + [c];
      assert Avoids(a, {'_'}) && c != '_';
      SeparatedCamel(a);
      SeparatedCamelStep(a, c);
    }
  }

  lemma SeparatedCamelStep(a: string, c: char)
    requires Avoids(a, {'_'}) && c != '_'
    requires CamelCase(Separated(a, '_')) == a
    ensures CamelCase(Separated(a + [c], '_')) == a + [c]
  {
    var sa := Separated(a, '_');
    SeparatedSnoc(a, c, '_');
    SeparatedEndsUnseparated(a, '_');
    if IsUpper(c) {
      HumpPieceSplit(sa, c, '_');
      CamelOfHump(sa, c);
    } else {
      CamelCaseSnoc(sa, c);
    }
  }

  // ---------------------------------------------------------------------------
  // toShortClassName, lastDelimetedValue
  // ---------------------------------------------------------------------------

  /**
   * The part after the last dot: the longest dot-free suffix, which is the
   * whole name when there is no dot. null and empty names are returned unchanged.
   */
  function ToShortClassName(fullClassName: Option<string>): (r: Option<string>)
    ensures r.None? <==> fullClassName.None?
    ensures r.Some? ==> EndsWith(fullClassName.value, r.value) && Avoids(r.value, {'.'})
    ensures r.Some? && Avoids(fullClassName.value, {'.'}) ==> r == fullClassName
    ensures r.Some? && !Avoids(fullClassName.value, {'.'}) ==>
              var s := fullClassName.value;
              |r.value| < |s| && s[|s| - |r.value| - 1] == '.'
  {
    if fullClassName.None? || fullClassName.value == [] then fullClassName
    else
      var s := fullClassName.value;
      var lastDotIndex := LastIndexOf(s, '.');
      if lastDotIndex == -1 then fullClassName
      else Some(s[lastDotIndex + 1..])
  }

  /**
   * fullValue.substring(fullValue.lastIndexOf(delimeter) + 1), as written:
   * the cut is one character after where the last delimiter starts. An empty
   * delimiter is found at the very end, so the cut runs past the end and
   * Java throws (None); an absent delimiter gives the whole text.
   */
  function LastDelimetedValue(fullValue: string, delimeter: string): (r: Option<string>)
    ensures r.None? <==> delimeter == []
    ensures r.Some? ==> EndsWith(fullValue, r.value)
    ensures LastIndexOfString(fullValue, delimeter) == -1 ==> r == Some(fullValue)
    ensures delimeter != [] && LastIndexOfString(fullValue, delimeter) >= 0 ==>
              r == Some(fullValue[LastIndexOfString(fullValue, delimeter) + 1..])
  {
    var idx := LastIndexOfString(fullValue, delimeter);
    assert delimeter == [] ==> OccursAt(fullValue, delimeter, |fullValue|);
    if idx + 1 <= |fullValue| then Some(fullValue[idx + 1..]) else None
  }

  /** With "." as delimiter it agrees with toShortClassName. */
  lemma LastDelimetedValueDot(s: string)
    ensures LastDelimetedValue(s, ".") == ToShortClassName(Some(s))
  {
    var i := LastIndexOfString(s, ".");
    var j := LastIndexOf(s, '.');
    assert forall k :: OccursAt(s, ".", k) <==> 0 <= k < |s| && s[k] == '.' by {
      forall k | 0 <= k < |s| ensures OccursAt(s, ".", k) <==> s[k] == '.' {
        assert s[k..k + 1] == [s[k]];
      }
    }
    assert i == j;
  }

  /**
   * The cut as written keeps the tail of a multi-character delimiter:
   * "a::b" split at "::" gives ":b".
   */
  lemma LastDelimetedValueKeepsDelimiterTail()
    ensures LastDelimetedValue("a::b", "::") == Some(":b")
  {
    var s := "a::b";
    assert OccursAt(s, "::", 1) by {
      assert s[1..3] == "::";
    }
    assert !OccursAt(s, "::", 2) by {
      assert s[2..4][1] == 'b';
    }
    assert LastIndexOfString(s, "::") == 1;
    assert s[2..] == ":b";
  }

  /**
   * The value after the last delimiter, cutting past the whole delimiter.
   * Like the original it fails on an empty delimiter.
   */
  function ValueAfterLastDelimiter(fullValue: string, delimiter: string): (r: Option<string>)
    ensures r.None? <==> delimiter == []
    ensures r.Some? ==> EndsWith(fullValue, r.value)
    ensures r.Some? ==> forall j :: !OccursAt(r.value, delimiter, j)
    ensures LastIndexOfString(fullValue, delimiter) == -1 ==> r == Some(fullValue)
    ensures delimiter != [] && LastIndexOfString(fullValue, delimiter) >= 0 ==>
              exists k :: && OccursAt(fullValue, delimiter, k)
                          && (forall j :: j > k ==> !OccursAt(fullValue, delimiter, j))
                          && r == Some(fullValue[k + |delimiter|..])
  {
    if delimiter == [] then None
    else
      var idx := LastIndexOfString(fullValue, delimiter);
      if idx == -1 then Some(fullValue)
      else
        var r := fullValue[idx + |delimiter|..];
        assert forall j :: OccursAt(r, delimiter, j) ==> OccursAt(fullValue, delimiter, idx + |delimiter| + j) by {
          forall j | OccursAt(r, delimiter, j)
            ensures OccursAt(fullValue, delimiter, idx + |delimiter| + j)
          {
            var k := idx + |delimiter| + j;
            assert r[j..j + |delimiter|] == fullValue[k..k + |delimiter|];
          }
        }
        Some(r)
  }

  /** For a one-character delimiter the two cuts agree. */
  lemma ValueAfterLastDelimiterAgrees(fullValue: string, delimiter: string)
    requires |delimiter| == 1
    ensures ValueAfterLastDelimiter(fullValue, delimiter) == LastDelimetedValue(fullValue, delimiter)
  {
  }

  // ---------------------------------------------------------------------------
  // toGetter, toSetter
  // ---------------------------------------------------------------------------

  /** prefix + the name with its first character upper-cased; null and empty names unchanged. */
  function AccessorName(prefix: string, name: Option<string>): (r: Option<string>)
    ensures r.None? <==> name.None?
    ensures name.Some? && name.value == [] ==> r == name
    ensures name.Some? && name.value != [] ==>
              |r.value| == |prefix| + |name.value| && StartsWith(r.value, prefix)
              && r.value[|prefix|] == ToUpper(name.value[0]) && r.value[|prefix| + 1..] == name.value[1..]
  {
    if name.None? || name.value == [] then name
    else Some(prefix + [ToUpper(name.value[0])] + name.value[1..])
  }

  /** "get" and the capitalised name, as the JavaBeans convention names a getter. */
  function ToGetter(shortClassName: Option<string>): (r: Option<string>)
    ensures r.None? <==> shortClassName.None?
    ensures shortClassName.Some? && shortClassName.value != [] ==>
              r.value == "get" + [ToUpper(shortClassName.value[0])] + shortClassName.value[1..]
    ensures shortClassName.Some? && shortClassName.value == [] ==> r == shortClassName
  {
    AccessorName("get", shortClassName)
  }

  /** "set" and the capitalised name, as the JavaBeans convention names a setter. */
  function ToSetter(shortClassName: Option<string>): (r: Option<string>)
    ensures r.None? <==> shortClassName.None?
    ensures shortClassName.Some? && shortClassName.value != [] ==>
              r.value == "set" + [ToUpper(shortClassName.value[0])] + shortClassName.value[1..]
    ensures shortClassName.Some? && shortClassName.value == [] ==> r == shortClassName
  {
    AccessorName("set", shortClassName)
  }

  /** The property name an accessor name stands for (the inverse of AccessorName, ASCII). */
  function PropertyOf(prefix: string, accessor: string): string
    requires |accessor| > |prefix|
  {
    [ToLower(accessor[|prefix|])] + accessor[|prefix| + 1..]
  }

  /** A field name that does not start upper-case is recovered from its getter and its setter. */
  lemma AccessorRoundTrip(name: string)
    requires name != [] && !IsUpper(name[0])
    ensures PropertyOf("get", ToGetter(Some(name)).value) == name
    ensures PropertyOf("set", ToSetter(Some(name)).value) == name
  {
    LowerOfUpper(name[0]);
    assert name == [name[0]] + name[1..];
  }

  /** Getter and setter differ only in their prefix. */
  lemma GetterSetterAgree(name: Option<string>)
    requires name.Some? && name.value != []
    ensures ToGetter(name).value[3..] == ToSetter(name).value[3..]
  {
  }

  // ---------------------------------------------------------------------------
  // toQueryString
  // ---------------------------------------------------------------------------

  function PairText(p: (string, string)): string {
    p.0 + "=" + p.1
  }

  function PairTexts(ps: seq<(string, string)>): (r: seq<string>)
    ensures |r| == |ps| && forall i :: 0 <= i < |ps| ==> r[i] == PairText(ps[i])
  {
    seq(|ps|, i requires 0 <= i < |ps| => PairText(ps[i]))
  }

  /** "?" and the key=value pairs joined by "&"; nothing for null or no parameters. */
  function QueryString(params: Option<seq<(string, string)>>): string {
    if params.None? || params.value == [] then ""
    else "?" + Join(PairTexts(params.value), '&')
  }

  /** Each part followed by `sep`, the way the loop appends them. */
  function Terminated(parts: seq<string>, sep: char): string {
    if parts == [] then [] else parts[0] + [sep] + Terminated(parts[1..], sep)
  }

  lemma {:induction false} TerminatedSnoc(parts: seq<string>, x: string, sep: char)
    ensures Terminated(parts + [x], sep) == Terminated(parts, sep) + x + [sep]
  {
    if parts != [] {
      assert (parts + [x])[1..] == parts[1..] + [x];
      TerminatedSnoc(parts[1..], x, sep);
    } else {
      assert parts + [x] == [x];
    }
  }

  /** Dropping the last separator of the terminated parts gives the joined parts. */
  lemma {:induction false} TerminatedJoin(parts: seq<string>, sep: char)
    requires parts != []
    ensures Terminated(parts, sep) == Join(parts, sep) + [sep]
  {
    if |parts| > 1 {
      TerminatedJoin(parts[1..], sep);
    }
  }

  /** Appends "key=value&" per parameter, then drops the final "&". */
  method ToQueryString(params: Option<seq<(string, string)>>) returns (r: string)
    ensures r == QueryString(params)
  {
    var queryString := "";
    if params.Some? && params.value != [] {
      var ps := params.value;
      queryString := queryString + "?";
      for i := 0 to |ps|
        invariant queryString == "?" + Terminated(PairTexts(ps[..i]), '&')
      {
        assert PairTexts(ps[..i + 1]) == PairTexts(ps[..i]) + [PairText(ps[i])];
        TerminatedSnoc(PairTexts(ps[..i]), PairText(ps[i]), '&');
        queryString := queryString + ps[i].0 + "=" + ps[i].1 + "&";
      }
      assert ps[..|ps|] == ps;
      TerminatedJoin(PairTexts(ps), '&');
      queryString := queryString[..|queryString| - 1];
      return queryString;
    }
    return "";
  }

  /** A pair text read back: the key up to the first '=', the value after it. */
  function ParsePair(p: string): (string, string) {
    var k := FirstIndexIn(p, {'='});
    if k < 0 then (p, "") else (p[..k], p[k + 1..])
  }

  /** A query string read back into its pairs. */
  function ParseQuery(q: string): seq<(string, string)> {
    if q == [] then []
    else
      var parts := SplitOn(q[1..], {'&'});
      seq(|parts|, i requires 0 <= i < |parts| => ParsePair(parts[i]))
  }

  /**
   * The query string keeps every pair in order: when no key holds '&' or '='
   * and no value holds '&', reading it back gives the parameters again.
   */
  lemma QueryStringRoundTrip(ps: seq<(string, string)>)
    requires ps != []
    requires forall i :: 0 <= i < |ps| ==> Avoids(ps[i].0, {'&', '='}) && Avoids(ps[i].1, {'&'})
    ensures ParseQuery(QueryString(Some(ps))) == ps
  {
    var texts := PairTexts(ps);
    assert forall p :: p in texts ==> Avoids(p, {'&'}) by {
      forall p | p in texts ensures Avoids(p, {'&'}) {
        var i :| 0 <= i < |texts| && texts[i] == p;
        PairTextAvoids(ps[i]);
      }
    }
    assert SplitOn(QueryString(Some(ps))[1..], {'&'}) == texts by {
      SplitJoin(texts, '&', {'&'});
    }
    forall i | 0 <= i < |ps| ensures ParsePair(texts[i]) == ps[i] {
      ParsePairText(ps[i]);
    }
  }

  lemma PairTextAvoids(p: (string, string))
    requires Avoids(p.0, {'&', '='}) && Avoids(p.1, {'&'})
    ensures Avoids(PairText(p), {'&'})
  {
    assert PairText(p) == p.0 + ['='] + p.1;
  }

  /** A pair text reads back as its pair when the key holds no '='. */
  lemma ParsePairText(p: (string, string))
    requires Avoids(p.0, {'='})
    ensures ParsePair(PairText(p)) == p
  {
    var t := PairText(p);
    assert t == p.0 + ['='] + p.1;
    FirstIndexOfJoin(p.0, '=', p.1, {'='});
    assert t[..|p.0|] == p.0 && t[|p.0| + 1..] == p.1;
  }

  // ---------------------------------------------------------------------------
  // toClassName
  // ---------------------------------------------------------------------------

  /** The word delimiters of snake_case and kebab-case. */
  const Delimiters: set<char> := {'_', '-'}

  /** The text holds an '_' or a '-'. */
  predicate HasDelimiter(text: string) {
    FirstIndexIn(text, Delimiters) >= 0
  }

  lemma HasDelimiterIff(text: string)
    ensures HasDelimiter(text) <==> !Avoids(text, Delimiters)
  {
  }

  /** A word with its first character upper-cased and the rest lower-cased. */
  function CapitalizedWord(w: string): string {
    if w == [] then [] else [ToUpper(w[0])] + LowerAll(w[1..])
  }

  /** The capitalised non-empty parts, in order. */
  function CapitalizedWords(parts: seq<string>): string {
    if parts == [] then []
    else CapitalizedWords(parts[..|parts| - 1]) + CapitalizedWord(parts[|parts| - 1])
  }

  /** The class name a text gets when it holds a delimiter: its capitalised words. */
  function Words(text: string): string {
    CapitalizedWords(SplitOn(text, Delimiters))
  }

  /**
   * The class name of a snake_case, kebab-case or camelCase name: with a
   * delimiter, the capitalised words between delimiters; without one, the
   * name with its first character upper-cased.
   */
  function ClassName(text: string): string {
    if HasDelimiter(text) then Words(text)
    else if text == [] then []
    else [ToUpper(text[0])] + text[1..]
  }

  /** The loop over the split parts: empty parts skipped, the others capitalised and appended. */
  method CapitalizeParts(parts: seq<string>) returns (sb: string)
    ensures sb == CapitalizedWords(parts)
  {
    sb := "";
    for i := 0 to |parts|
      invariant sb == CapitalizedWords(parts[..i])
    {
      CapitalizeStep(parts, i);
      var part := parts[i];
      if part == [] {
        continue;
      }
      if |part| == 1 {
        sb := sb + [ToUpper(part[0])];
      } else {
        sb := sb + ([ToUpper(part[0])] + LowerAll(part[1..]));
      }
    }
    assert parts[..|parts|] == parts;
  }

  lemma CapitalizeStep(parts: seq<string>, i: nat)
    requires i < |parts|
    ensures CapitalizedWords(parts[..i + 1]) == CapitalizedWords(parts[..i]) + CapitalizedWord(parts[i])
    ensures |parts[i]| == 1 ==> CapitalizedWord(parts[i]) == [ToUpper(parts[i][0])]
  {
    assert parts[..i + 1][..i] == parts[..i];
    if |parts[i]| == 1 {
      assert LowerAll(parts[i][1..]) == [];
    }
  }

  /** null and empty text are returned unchanged; other text gets its class name. */
  method ToClassName(text: Option<string>) returns (r: Option<string>)
    ensures text.None? ==> r.None?
    ensures text.Some? ==> r == Some(ClassName(text.value))
  {
    if text.None? || text.value == [] {
      return text;
    }
    var t := text.value;
    if HasDelimiter(t) {
      var sb := CapitalizeParts(SplitOn(t, Delimiters));
      return Some(sb);
    }
    if |t| == 1 {
      assert UpperAll(t) == [ToUpper(t[0])] + t[1..];
      return Some(UpperAll(t));
    }
    return Some([ToUpper(t[0])] + t[1..]);
  }

  lemma CapitalizedWordAvoids(w: string)
    requires Avoids(w, Delimiters)
    ensures Avoids(CapitalizedWord(w), Delimiters)
  {
  }

  lemma {:induction false} CapitalizedWordsAvoid(parts: seq<string>)
    requires forall p :: p in parts ==> Avoids(p, Delimiters)
    ensures Avoids(CapitalizedWords(parts), Delimiters)
  {
    if parts != [] {
      var init := parts[..|parts| - 1];
      assert forall p :: p in init ==> p in parts;
      CapitalizedWordsAvoid(init);
      CapitalizedWordAvoids(parts[|parts| - 1]);
    }
  }

  /** A class name contains no '_' and no '-'. */
  lemma ClassNameAvoidsDelimiters(text: string)
    ensures Avoids(ClassName(text), Delimiters)
  {
    HasDelimiterIff(text);
    if HasDelimiter(text) {
      CapitalizedWordsAvoid(SplitOn(text, Delimiters));
    } else if text != [] {
      var out := ClassName(text);
      assert out[0] == ToUpper(text[0]) && ToUpper(text[0]) !in Delimiters;
      assert forall i :: 1 <= i < |out| ==> out[i] == text[i];
    }
  }

  lemma {:induction false} CapitalizedWordsStartUpper(parts: seq<string>)
    ensures CapitalizedWords(parts) != [] ==> !IsLower(CapitalizedWords(parts)[0])
  {
    if parts != [] {
      CapitalizedWordsStartUpper(parts[..|parts| - 1]);
    }
  }

  /** A class name is its own class name. */
  lemma ClassNameIdempotent(text: string)
    ensures ClassName(ClassName(text)) == ClassName(text)
  {
    var out := ClassName(text);
    ClassNameAvoidsDelimiters(text);
    ClassNameStartsUpper(text);
    if out != [] {
      ClassNameUndelimited(out);
      assert out == [out[0]] + out[1..];
    }
  }

  /** A class name does not start with a lower-case letter. */
  lemma ClassNameStartsUpper(text: string)
    ensures ClassName(text) != [] ==> !IsLower(ClassName(text)[0])
  {
    if HasDelimiter(text) {
      CapitalizedWordsStartUpper(SplitOn(text, Delimiters));
    }
  }

  lemma {:induction false} CapitalizedWordsAppend(p: seq<string>, q: seq<string>)
    ensures CapitalizedWords(p + q) == CapitalizedWords(p) + CapitalizedWords(q)
  {
    if q != [] {
      var q0 := q[..|q| - 1];
      assert (p + q)[..|p + q| - 1] == p + q0;
      CapitalizedWordsAppend(p, q0);
      AppendAssoc(CapitalizedWords(p), CapitalizedWords(q0), CapitalizedWord(q[|q| - 1]));
    } else {
      assert p + q == p;
    }
  }

  /** A delimiter between two texts joins their words. */
  lemma WordsAppend(u: string, d: char, v: string)
    requires d in Delimiters
    ensures Words(u + [d] + v) == Words(u) + Words(v)
  {
    SplitOnAppend(u, d, v, Delimiters);
    CapitalizedWordsAppend(SplitOn(u, Delimiters), SplitOn(v, Delimiters));
  }

  /** A text without delimiters is one word. */
  lemma WordsOfWord(w: string)
    requires Avoids(w, Delimiters)
    ensures Words(w) == CapitalizedWord(w)
  {
    assert SplitOn(w, Delimiters) == [w];
    assert [w][..0] == [];
    assert CapitalizedWords([w]) == CapitalizedWords([]) + CapitalizedWord(w);
  }

  /** A text holding a delimiter gets its words as class name. */
  lemma ClassNameOfDelimited(u: string, d: char, v: string)
    requires d in Delimiters
    ensures ClassName(u + [d] + v) == Words(u) + Words(v)
  {
    WordsAppend(u, d, v);
    HasDelimiterIff(u + [d] + v);
    assert (u + [d] + v)[|u|] == d;
  }

  /**
   * A run of delimiters counts as one, as in a split on the pattern "[_-]+".
   */
  lemma ClassNameDelimiterRun(u: string, d1: char, d2: char, v: string)
    requires d1 in Delimiters && d2 in Delimiters
    ensures ClassName(u + [d1, d2] + v) == ClassName(u + [d1] + v)
  {
    var w := [d2] + v;
    RegroupRun(u, d1, d2, v);
    ClassNameIsWords(u, d1, w);
    ClassNameIsWords(u, d1, v);
    WordsDelimiterRun(u, d1, d2, v);
  }

  lemma WordsDelimiterRun(u: string, d1: char, d2: char, v: string)
    requires d1 in Delimiters && d2 in Delimiters
    ensures Words(u + [d1] + ([d2] + v)) == Words(u + [d1] + v)
  {
    WordsAppend(u, d1, [d2] + v);
    WordsAppend(u, d1, v);
    WordsLeadingDelimiter(d2, v);
  }

  /** A leading delimiter adds no word. */
  lemma WordsLeadingDelimiter(d: char, v: string)
    requires d in Delimiters
    ensures Words([d] + v) == Words(v)
  {
    assert [] + [d] + v == [d] + v;
    WordsAppend([], d, v);
    WordsOfWord([]);
  }

  lemma ClassNameIsWords(u: string, d: char, v: string)
    requires d in Delimiters
    ensures ClassName(u + [d] + v) == Words(u + [d] + v)
  {
    HasDelimiterIff(u + [d] + v);
    assert (u + [d] + v)[|u|] == d;
  }

  lemma RegroupRun(u: string, d1: char, d2: char, v: string)
    ensures u + [d1, d2] + v == u + [d1] + ([d2] + v)
  {
    assert [d1, d2] == [d1] + [d2];
  }

  /** Delimiters at either end are ignored once the text holds another delimiter. */
  lemma ClassNameOuterDelimiters(u: string, d: char, v: string, e: char)
    requires d in Delimiters && e in Delimiters
    ensures ClassName([e] + (u + [d] + v)) == ClassName(u + [d] + v)
    ensures ClassName((u + [d] + v) + [e]) == ClassName(u + [d] + v)
  {
    var t := u + [d] + v;
    assert ClassName(t) == Words(t) by {
      ClassNameOfDelimited(u, d, v);
      WordsAppend(u, d, v);
    }
    assert Words([]) == [] by {
      WordsOfWord([]);
    }
    assert ClassName([e] + t) == Words([]) + Words(t) by {
      assert [e] + t == [] + [e] + t;
      ClassNameOfDelimited([], e, t);
    }
    assert ClassName(t + [e]) == Words(t) + Words([]) by {
      assert t + [e] == t + [e] + [];
      ClassNameOfDelimited(t, e, []);
    }
  }

  lemma CapitalizedUserName()
    ensures CapitalizedWord("user") == "User" && CapitalizedWord("name") == "Name"
  {
    assert LowerAll("ser") == "ser";
    assert LowerAll("ame") == "ame";
  }

  /** Two words joined by either delimiter: both capitalised, side by side. */
  lemma ClassNameTwoWords(a: string, sep: char, b: string)
    requires Avoids(a, Delimiters) && Avoids(b, Delimiters) && sep in Delimiters
    ensures ClassName(a + [sep] + b) == CapitalizedWord(a) + CapitalizedWord(b)
  {
    ClassNameOfDelimited(a, sep, b);
    WordsOfWord(a);
    WordsOfWord(b);
  }

  /** "user" and "name" joined by either delimiter: "UserName". */
  lemma ClassNameUserName(sep: char)
    requires sep in Delimiters
    ensures ClassName("user" + [sep] + "name") == "UserName"
  {
    assert Avoids("user", Delimiters) && Avoids("name", Delimiters);
    ClassNameTwoWords("user", sep, "name");
    CapitalizedUserName();
    JoinedLiteral("User", "Name", "UserName");
  }

  lemma JoinedLiteral(a: string, b: string, ab: string)
    requires |ab| == |a| + |b| && ab[..|a|] == a && ab[|a|..] == b
    ensures a + b == ab
  {
    assert ab == ab[..|a|] + ab[|a|..];
  }

  /** The snake_case examples of the unit tests. */
  lemma ClassNameSnakeExample()
    ensures ClassName("user_name") == "UserName"
  {
    ClassNameUserName('_');
    UserNameTexts();
  }

  lemma UserNameTexts()
    ensures "user" + ['_'] + "name" == "user_name"
    ensures "user" + ['-'] + "name" == "user-name"
  {
  }

  lemma ClassNameSingleWordExample()
    ensures ClassName("user") == "User"
  {
    assert Avoids("user", Delimiters);
  }

  lemma ClassNameTrailingExample()
    ensures ClassName("user_name__") == "UserName"
  {
    var t := "user" + ['_'] + "name";
    assert ClassName(t) == "UserName" by {
      ClassNameUserName('_');
    }
    assert ClassName(t + ['_']) == ClassName(t) by {
      ClassNameOuterDelimiters("user", '_', "name", '_');
    }
    assert ClassName(t + ['_', '_'] + []) == ClassName(t + ['_'] + []) by {
      ClassNameDelimiterRun(t, '_', '_', []);
    }
    TrailingTexts();
  }

  lemma TrailingTexts()
    ensures var t := "user" + ['_'] + "name";
      t + ['_'] + [] == t + ['_'] && t + ['_', '_'] + [] == "user_name__"
  {
  }

  lemma ClassNameLettersExample()
    ensures ClassName("a_b_c") == "ABC"
  {
    var bc := "b" + ['_'] + "c";
    assert Words("a") == "A" && Words("b") == "B" && Words("c") == "C" by {
      assert Avoids("a", Delimiters) && Avoids("b", Delimiters) && Avoids("c", Delimiters);
      WordsOfWord("a");
      WordsOfWord("b");
      WordsOfWord("c");
    }
    assert Words(bc) == Words("b") + Words("c") by {
      WordsAppend("b", '_', "c");
    }
    assert ClassName("a" + ['_'] + bc) == Words("a") + Words(bc) by {
      ClassNameOfDelimited("a", '_', bc);
    }
    LettersTexts();
  }

  lemma LettersTexts()
    ensures "a" + ['_'] + ("b" + ['_'] + "c") == "a_b_c"
    ensures "A" + ("B" + "C") == "ABC"
  {
  }

  /** Without a delimiter only the first character is upper-cased. */
  lemma ClassNameUndelimited(w: string)
    requires w != [] && Avoids(w, Delimiters)
    ensures ClassName(w) == [ToUpper(w[0])] + w[1..]
  {
    HasDelimiterIff(w);
  }

  /** The camelCase, PascalCase and empty examples of the unit tests. */
  lemma ClassNameCamelExample()
    ensures ClassName("userName") == "UserName"
  {
    var w := "userName";
    assert Avoids(w, Delimiters);
    ClassNameUndelimited(w);
    assert [ToUpper(w[0])] + w[1..] == "UserName";
  }

  lemma ClassNamePascalExample()
    ensures ClassName("UserName") == "UserName"
  {
    var w := "UserName";
    assert Avoids(w, Delimiters);
    ClassNameUndelimited(w);
    assert [ToUpper(w[0])] + w[1..] == w;
  }

  lemma ClassNameShortExamples()
    ensures ClassName("u") == "U"
    ensures ClassName("") == ""
  {
    assert Avoids("u", Delimiters);
    ClassNameUndelimited("u");
  }

  /** The kebab-case examples of the unit tests. */
  lemma ClassNameKebabExample()
    ensures ClassName("user-name") == "UserName"
  {
    ClassNameUserName('-');
    UserNameTexts();
  }

  lemma ClassNameDoubledDashExample()
    ensures ClassName("-user--name-") == "UserName"
  {
    var t := "user" + ['-'] + "name";
    var t2 := "user" + ['-'] + "-name";
    var t3 := "user" + ['-'] + "-name-";
    DashTexts();
    assert ClassName(t) == "UserName" by {
      ClassNameUserName('-');
    }
    assert ClassName(t2) == ClassName(t) by {
      ClassNameDelimiterRun("user", '-', '-', "name");
    }
    assert ClassName(t3) == ClassName(t2) by {
      ClassNameOuterDelimiters("user", '-', "-name", '-');
    }
    assert ClassName(['-'] + t3) == ClassName(t3) by {
      ClassNameOuterDelimiters("user", '-', "-name-", '-');
    }
  }

  lemma DashTexts()
    ensures "user" + ['-', '-'] + "name" == "user" + ['-'] + "-name"
    ensures ("user" + ['-'] + "-name") + ['-'] == "user" + ['-'] + "-name-"
    ensures ['-'] + ("user" + ['-'] + "-name-") == "-user--name-"
  {
  }
}

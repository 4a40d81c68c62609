// The translation endpoints: the language-code check of GET /i18n/:code, the
// flat key -> value dictionary it builds from the joined translation rows, and
// the language id PUT /i18n/new writes. The database queries are left out.
module I18n {
  import opened Wrappers

  /** The characters `String.prototype.trim` removes: white space and line terminators. */
  predicate IsTrimSpace(c: char) {
    var n := c as int;
    n == 0x09 || n == 0x0A || n == 0x0B || n == 0x0C || n == 0x0D || n == 0x20 ||
    n == 0xA0 || n == 0x1680 || (0x2000 <= n <= 0x200A) || n == 0x2028 || n == 0x2029 ||
    n == 0x202F || n == 0x205F || n == 0x3000 || n == 0xFEFF
  }

  function TrimStart(s: string): (r: string)
    ensures |r| <= |s| && r == s[|s| - |r|..]
    ensures r == [] || !IsTrimSpace(r[0])
    ensures forall i :: 0 <= i < |s| - |r| ==> IsTrimSpace(s[i])
  {
    if s != [] && IsTrimSpace(s[0]) then TrimStart(s[1..]) else s
  }

  function TrimEnd(s: string): (r: string)
    ensures |r| <= |s| && r == s[..|r|]
    ensures r == [] || !IsTrimSpace(r[|r| - 1])
    ensures forall i :: |r| <= i < |s| ==> IsTrimSpace(s[i])
  {
    if s != [] && IsTrimSpace(s[|s| - 1]) then TrimEnd(s[..|s| - 1]) else s
  }

  /** `trim`: `s` without its leading and trailing white space. */
  function Trim(s: string): string {
    TrimEnd(TrimStart(s))
  }

  /** The trimmed text sits right after the leading white space. */
  lemma TrimMiddle(s: string)
    ensures var r := Trim(s); var lead := |s| - |TrimStart(s)|;
      lead + |r| <= |s| && s[lead..lead + |r|] == r
  {
    var t := TrimStart(s);
    SliceOfSuffixPrefix(s, |s| - |t|, t, TrimEnd(t));
  }

  /** A prefix of a suffix of `s` is a slice of `s`. */
  lemma SliceOfSuffixPrefix(s: string, lead: int, t: string, r: string)
    requires 0 <= lead <= |s| && t == s[lead..] && |r| <= |t| && r == t[..|r|]
    ensures lead + |r| <= |s| && s[lead..lead + |r|] == r
  {
    assert s[lead..lead + |r|] == s[lead..][..|r|];
  }

  /** Everything after the trimmed text is white space. */
  lemma TrimTrailing(s: string)
    ensures var r := Trim(s); var lead := |s| - |TrimStart(s)|;
      forall k :: lead + |r| <= k < |s| ==> IsTrimSpace(s[k])
  {
    var t := TrimStart(s);
    var r := TrimEnd(t);
    var lead := |s| - |t|;
    assert t == s[lead..];
    forall k | lead + |r| <= k < |s| ensures IsTrimSpace(s[k]) {
      assert s[k] == t[k - lead];
    }
  }

  /** The trimmed text neither starts nor ends with white space. */
  lemma TrimEnds(s: string)
    ensures var r := Trim(s); r == [] || (!IsTrimSpace(r[0]) && !IsTrimSpace(r[|r| - 1]))
  {
    var t := TrimStart(s);
    var r := TrimEnd(t);
    if r != [] {
      assert r[0] == t[0];
    }
  }

  /** The trimmed text is a slice of the input with only white space cut at either end, and it
      neither starts nor ends with white space. */
  lemma TrimSlice(s: string)
    ensures var r := Trim(s); var lead := |s| - |TrimStart(s)|;
      (r == [] || (!IsTrimSpace(r[0]) && !IsTrimSpace(r[|r| - 1]))) &&
      lead + |r| <= |s| && s[lead..lead + |r|] == r &&
      (forall k :: 0 <= k < lead ==> IsTrimSpace(s[k])) &&
      (forall k :: lead + |r| <= k < |s| ==> IsTrimSpace(s[k]))
  {
    TrimEnds(s);
    TrimMiddle(s);
    TrimTrailing(s);
  }

  lemma TrimIdempotent(s: string)
    ensures Trim(Trim(s)) == Trim(s)
  {
  }

  datatype I18nError = LanguageCodeRequired

  /** The route parameter, trimmed; empty is refused. A missing parameter is "". */
  function LanguageCode(raw: string): Result<string, I18nError> {
    var code := Trim(raw);
    if code == "" then Failure(LanguageCodeRequired) else Success(code)
  }

  /** A code is refused exactly when the parameter is all white space (or empty). */
  lemma LanguageCodeRefused(raw: string)
    ensures LanguageCode(raw).Failure? <==> forall k :: 0 <= k < |raw| ==> IsTrimSpace(raw[k])
    ensures LanguageCode(raw).Success? ==> LanguageCode(raw).value == Trim(raw) != ""
  {
    TrimSlice(raw);
    if forall k :: 0 <= k < |raw| ==> IsTrimSpace(raw[k]) {
      AllSpaceTrimsToEmpty(raw);
    }
  }

  lemma {:induction false} AllSpaceTrimsToEmpty(s: string)
    requires forall k :: 0 <= k < |s| ==> IsTrimSpace(s[k])
    ensures TrimStart(s) == []
    decreases |s|
  {
    if s != [] {
      AllSpaceTrimsToEmpty(s[1..]);
    }
  }

  // ---------------------------------------------------------------------------
  // The dictionary

  /** A joined translation row; a key or a value that is not a string is `None`. */
  datatype TranslationRow = TranslationRow(key: Option<string>, value: Option<string>)

  predicate Usable(row: TranslationRow) {
    row.key.Some? && row.value.Some?
  }

  /** The `for` loop: every row whose key and value are both strings sets its entry, so the last
      such row for a key decides its value. */
  method BuildDictionary(rows: seq<TranslationRow>) returns (dictionary: map<string, string>)
    ensures forall k :: k in dictionary <==>
      exists i :: 0 <= i < |rows| && Usable(rows[i]) && rows[i].key.value == k
    ensures forall k :: k in dictionary ==>
      exists i :: 0 <= i < |rows| && rows[i] == TranslationRow(Some(k), Some(dictionary[k])) &&
        forall j :: i < j < |rows| ==> !(Usable(rows[j]) && rows[j].key.value == k)
  {
    dictionary := map[];
    var n := 0;
    while n < |rows|
      invariant 0 <= n <= |rows|
      invariant forall k :: k in dictionary <==>
        exists i :: 0 <= i < n && Usable(rows[i]) && rows[i].key.value == k
      invariant forall k :: k in dictionary ==>
        exists i :: 0 <= i < n && rows[i] == TranslationRow(Some(k), Some(dictionary[k])) &&
          forall j :: i < j < n ==> !(Usable(rows[j]) && rows[j].key.value == k)
    {
      var row := rows[n];
      if row.key.Some? && row.value.Some? {
        dictionary := dictionary[row.key.value := row.value.value];
      }
      n := n + 1;
    }
  }

  /** The language id of PUT /i18n/new: 1 for `en`, 2 for any other code. */
  function LanguageId(code: string): (id: int)
    ensures id == 1 || id == 2
    ensures id == 1 <==> code == "en"
  {
    if code == "en" then 1 else 2
  }
}

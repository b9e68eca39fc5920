/** Filename, URL and prompt helpers of the package (video_generation/utils.py). */
module Utils {
  import opened PyValues
  import opened PyText

  // ---------------------------------------------------------------------
  // sanitize_filename
  // ---------------------------------------------------------------------

  /** Characters that survive `re.sub(r"[^\w\s-]", "", text)`. */
  predicate IsKept(c: char) {
    IsWordChar(c) || IsSpace(c) || c == '-'
  }

  /** Characters that `[\s_]+` matches. */
  predicate IsRunChar(c: char) {
    IsSpace(c) || c == '_'
  }

  predicate IsUnderscore(c: char) {
    c == '_'
  }

  /** Characters a sanitized name may hold. */
  predicate IsNameChar(c: char) {
    IsWordChar(c) || c == '-'
  }

  predicate OnlyNameChars(s: string) {
    forall i :: 0 <= i < |s| ==> IsNameChar(s[i])
  }

  predicate NoDoubleUnderscore(s: string) {
    forall i :: 0 <= i < |s| - 1 ==> !(s[i] == '_' && s[i + 1] == '_')
  }

  /** What the sanitizer promises of its result. */
  predicate SafeName(s: string) {
    && s != []
    && OnlyNameChars(s)
    && NoDoubleUnderscore(s)
    && s[0] != '_'
    && s[|s| - 1] != '_'
  }

  /** First substitution: drop every character that is not a word character,
      whitespace or a hyphen. */
  function RemoveSpecial(s: string): (r: string)
    ensures |r| <= |s|
    ensures forall i :: 0 <= i < |r| ==> IsKept(r[i])
  {
    if s == [] then []
    else (if IsKept(s[0]) then [s[0]] else []) + RemoveSpecial(s[1..])
  }

  /** Second substitution: every maximal run of whitespace and underscores
      becomes one underscore. */
  function CollapseRuns(s: string): string
    decreases |s|
  {
    if s == [] then []
    else if IsRunChar(s[0]) && |s| > 1 && IsRunChar(s[1]) then CollapseRuns(s[1..])
    else if IsRunChar(s[0]) then "_" + CollapseRuns(s[1..])
    else [s[0]] + CollapseRuns(s[1..])
  }

  /** Python's `s[:n]`, where a negative n counts from the end. */
  function PyPrefix(s: string, n: int): (r: string)
    ensures |r| <= |s| && r == s[..|r|]
    ensures 0 <= n <= |s| ==> |r| == n
    ensures n > |s| ==> r == s
  {
    if n >= 0 then (if n <= |s| then s[..n] else s)
    else if |s| + n >= 0 then s[..|s| + n] else []
  }

  /** The sanitized text before the `"video"` fallback. */
  function Cleaned(text: string, maxLength: int): string {
    var s := Strip(CollapseRuns(RemoveSpecial(text)), IsUnderscore);
    if |s| > maxLength then StripRight(PyPrefix(s, maxLength), IsUnderscore) else s
  }

  /** `sanitize_filename(text, max_length)`. */
  function SanitizeFilename(text: string, maxLength: int): (r: string)
    ensures SafeName(r)
    ensures maxLength >= 0 ==> |r| <= maxLength || r == "video"
    ensures r == "video" <==> Cleaned(text, maxLength) == [] || Cleaned(text, maxLength) == "video"
  {
    var c := Cleaned(text, maxLength);
    CleanedProperties(text, maxLength);
    if c == [] then
      FallbackIsSafe("video");
      "video"
    else c
  }

  lemma FallbackIsSafe(v: string)
    requires v == "video"
    ensures SafeName(v)
  {
    assert forall i :: 0 <= i < |v| ==> 'a' <= v[i] <= 'z';
  }

  /** No whitespace survives sanitizing. */
  lemma SanitizedHasNoWhitespace(text: string, maxLength: int)
    ensures forall i :: 0 <= i < |SanitizeFilename(text, maxLength)| ==> !IsSpace(SanitizeFilename(text, maxLength)[i])
  {
    NameCharsAreNotSpace(SanitizeFilename(text, maxLength));
  }

  lemma NameCharsAreNotSpace(s: string)
    requires OnlyNameChars(s)
    ensures forall i :: 0 <= i < |s| ==> !IsSpace(s[i])
  {
    forall i | 0 <= i < |s| ensures !IsSpace(s[i]) {
      WordCharIsNotSpace(s[i]);
    }
  }

  /** Everything the collapsing step produces is a name character, has no
      doubled underscore, and starts with `_` exactly when its input starts
      with whitespace or an underscore. */
  lemma {:induction false} CollapseRunsProperties(s: string)
    requires forall i :: 0 <= i < |s| ==> IsKept(s[i])
    ensures OnlyNameChars(CollapseRuns(s))
    ensures NoDoubleUnderscore(CollapseRuns(s))
    ensures CollapseRuns(s) == [] <==> s == []
    ensures s != [] ==> (CollapseRuns(s)[0] == '_' <==> IsRunChar(s[0]))
    decreases |s|
  {
    if s != [] {
      var r := CollapseRuns(s);
      var t := s[1..];
      CollapseRunsProperties(t);
      if IsRunChar(s[0]) && |s| > 1 && IsRunChar(s[1]) {
        assert r == CollapseRuns(t);
      } else {
        assert r == (if IsRunChar(s[0]) then "_" else [s[0]]) + CollapseRuns(t);
        assert forall i :: 0 <= i < |r| - 1 ==> r[i + 1] == CollapseRuns(t)[i];
        WordCharIsNotSpace(s[0]);
      }
    }
  }

  /** A stretch of a safe text is still free of foreign characters and of
      doubled underscores. */
  lemma SliceKeepsNameProperties(s: string, lo: int, hi: int)
    requires 0 <= lo <= hi <= |s|
    requires OnlyNameChars(s) && NoDoubleUnderscore(s)
    ensures OnlyNameChars(s[lo..hi]) && NoDoubleUnderscore(s[lo..hi])
  {
    var t := s[lo..hi];
    assert forall i :: 0 <= i < |t| ==> t[i] == s[lo + i];
  }

  /** Stripping underscores from both ends keeps a collapsed text safe and
      leaves no underscore at either end. */
  lemma StripUnderscoresProperties(col: string)
    requires OnlyNameChars(col) && NoDoubleUnderscore(col)
    ensures var s := Strip(col, IsUnderscore);
      && OnlyNameChars(s) && NoDoubleUnderscore(s)
      && (s != [] ==> s[0] != '_' && s[|s| - 1] != '_')
  {
    var l := StripLeft(col, IsUnderscore);
    SliceKeepsNameProperties(col, |col| - |l|, |col|);
    var s := StripRight(l, IsUnderscore);
    SliceKeepsNameProperties(l, 0, |s|);
    assert s != [] ==> s[0] == l[0];
  }

  /** Truncating to the limit and stripping trailing underscores keeps a
      stripped text safe and within the limit. */
  lemma TruncateProperties(s: string, maxLength: int)
    requires OnlyNameChars(s) && NoDoubleUnderscore(s)
    requires s != [] ==> s[0] != '_'
    ensures var v := StripRight(PyPrefix(s, maxLength), IsUnderscore);
      && OnlyNameChars(v) && NoDoubleUnderscore(v)
      && (v != [] ==> v[0] != '_' && v[|v| - 1] != '_')
      && (maxLength >= 0 ==> |v| <= maxLength)
  {
    var p := PyPrefix(s, maxLength);
    SliceKeepsNameProperties(s, 0, |p|);
    var v := StripRight(p, IsUnderscore);
    SliceKeepsNameProperties(p, 0, |v|);
    assert v != [] ==> v[0] == s[0];
  }

  lemma CleanedProperties(text: string, maxLength: int)
    ensures var c := Cleaned(text, maxLength);
      && OnlyNameChars(c) && NoDoubleUnderscore(c)
      && (c != [] ==> c[0] != '_' && c[|c| - 1] != '_')
      && (maxLength >= 0 ==> |c| <= maxLength)
  {
    var k := RemoveSpecial(text);
    CollapseRunsProperties(k);
    var s := Strip(CollapseRuns(k), IsUnderscore);
    StripUnderscoresProperties(CollapseRuns(k));
    if |s| > maxLength {
      TruncateProperties(s, maxLength);
      assert Cleaned(text, maxLength) == StripRight(PyPrefix(s, maxLength), IsUnderscore);
    } else {
      assert Cleaned(text, maxLength) == s;
    }
  }

  /** A text whose whitespace and underscores stand alone, each run replaced
      by one underscore. */
  function Underscored(s: string): (r: string)
    ensures |r| == |s|
  {
    seq(|s|, i requires 0 <= i < |s| => if IsRunChar(s[i]) then '_' else s[i])
  }

  predicate IsolatedRuns(s: string) {
    forall i :: 0 <= i < |s| - 1 ==> !(IsRunChar(s[i]) && IsRunChar(s[i + 1]))
  }

  /** When no two whitespace-or-underscore characters are adjacent, collapsing
      only turns each of them into an underscore. */
  lemma {:induction false} CollapseIsolatedRuns(s: string)
    requires IsolatedRuns(s)
    ensures CollapseRuns(s) == Underscored(s)
    decreases |s|
  {
    if s != [] {
      var t := s[1..];
      assert IsolatedRuns(t) by {
        assert forall i :: 0 <= i < |t| ==> t[i] == s[i + 1];
      }
      CollapseIsolatedRuns(t);
      assert Underscored(s) == [Underscored(s)[0]] + Underscored(t);
    }
  }

  lemma {:induction false} RemoveSpecialConcat(a: string, b: string)
    ensures RemoveSpecial(a + b) == RemoveSpecial(a) + RemoveSpecial(b)
    decreases |a|
  {
    if a != [] {
      assert (a + b)[1..] == a[1..] + b;
      RemoveSpecialConcat(a[1..], b);
    } else {
      assert a + b == b;
    }
  }

  lemma {:induction false} RemoveSpecialKeepsKept(s: string)
    requires forall i :: 0 <= i < |s| ==> IsKept(s[i])
    ensures RemoveSpecial(s) == s
    decreases |s|
  {
    if s != [] {
      RemoveSpecialKeepsKept(s[1..]);
    }
  }

  /** Stripping underscores leaves a text alone when it neither starts nor
      ends with one. */
  lemma StripUnderscoresFixes(r: string)
    requires r != [] && r[0] != '_' && r[|r| - 1] != '_'
    ensures Strip(r, IsUnderscore) == r
  {
    assert StripLeft(r, IsUnderscore) == r;
  }

  /** A safe name within the limit is its own cleaned form. */
  lemma CleanedFixesSafeName(r: string, maxLength: int)
    requires SafeName(r) && |r| <= maxLength
    ensures Cleaned(r, maxLength) == r
  {
    NameCharsAreNotSpace(r);
    forall i | 0 <= i < |r| ensures IsKept(r[i]) {
    }
    RemoveSpecialKeepsKept(r);
    CollapseIsolatedRuns(r);
    assert Underscored(r) == r;
    StripUnderscoresFixes(r);
  }

  /** Sanitizing a sanitized name changes nothing, as long as the limit leaves
      room for the `"video"` fallback. */
  lemma SanitizeIdempotent(text: string, maxLength: int)
    requires maxLength >= 5
    ensures SanitizeFilename(SanitizeFilename(text, maxLength), maxLength) == SanitizeFilename(text, maxLength)
  {
    CleanedFixesSafeName(SanitizeFilename(text, maxLength), maxLength);
  }

  /** The docstring's example: `sanitize_filename("A cat playing! @home")`
      is `A_cat_playing_home`. The text is given in three pieces, the middle
      one holding the characters that are dropped. */
  lemma SanitizeDocExample(a: string, b: string, c: string, expected: string)
    requires a == "A cat playing" && b == "! @" && c == "home"
    requires expected == "A_cat_playing_home"
    ensures SanitizeFilename(a + b + c, 50) == expected
  {
    RemoveSpecialConcat(a + b, c);
    RemoveSpecialConcat(a, b);
    ExampleKeptPiece(a);
    ExampleKeptPiece(c);
    ExampleDroppedPiece(b);
    var k := a + " " + c;
    ExampleCollapse(k, expected);
    StripUnderscoresFixes(expected);
  }

  lemma ExampleKeptPiece(s: string)
    requires s == "A cat playing" || s == "home"
    ensures RemoveSpecial(s) == s
  {
    assert forall i :: 0 <= i < |s| ==> s[i] == ' ' || 'a' <= s[i] <= 'z' || s[i] == 'A';
    RemoveSpecialKeepsKept(s);
  }

  lemma ExampleDroppedPiece(b: string)
    requires b == "! @"
    ensures RemoveSpecial(b) == " "
  {
    assert !IsKept('!') && IsKept(' ') && !IsKept('@');
    var t := b[1..];
    assert t == " @" && t[1..] == "@";
    assert RemoveSpecial(t[1..]) == [];
  }

  lemma ExampleCollapse(k: string, expected: string)
    requires k == "A cat playing home" && expected == "A_cat_playing_home"
    ensures CollapseRuns(k) == expected
  {
    ExampleRuns(k);
    ExampleIsolated(k);
    CollapseIsolatedRuns(k);
    ExampleUnderscored(k, expected);
  }

  lemma ExampleIsolated(k: string)
    requires k == "A cat playing home"
    requires forall i :: 0 <= i < |k| ==> (IsRunChar(k[i]) <==> k[i] == ' ')
    ensures IsolatedRuns(k)
  {
  }

  lemma ExampleUnderscored(k: string, expected: string)
    requires k == "A cat playing home" && expected == "A_cat_playing_home"
    requires forall i :: 0 <= i < |k| ==> (IsRunChar(k[i]) <==> k[i] == ' ')
    ensures Underscored(k) == expected
  {
    assert forall i :: 0 <= i < |k| ==> Underscored(k)[i] == expected[i];
  }

  lemma ExampleRuns(k: string)
    requires k == "A cat playing home"
    ensures forall i :: 0 <= i < |k| ==> (IsRunChar(k[i]) <==> k[i] == ' ')
  {
    forall i | 0 <= i < |k| ensures IsRunChar(k[i]) <==> k[i] == ' ' {
      LetterOrSpace(k[i]);
    }
  }

  lemma LetterOrSpace(c: char)
    requires c == ' ' || 'a' <= c <= 'z' || c == 'A'
    ensures IsRunChar(c) <==> c == ' '
  {
  }

  // ---------------------------------------------------------------------
  // generate_filename
  // ---------------------------------------------------------------------

  /** `generate_filename(prompt, index, timestamp)`: `"veo"`, the prompt
      sanitized to 30 characters, the index when there is one and the clock
      reading `int(time.time())` when a timestamp is requested (`stamp` is
      None when it is not), joined by underscores, then `.mp4`. The name stays
      inside the output directory: it holds no path separator. */
  function GenerateFilename(prompt: string, index: Option<int>, stamp: Option<int>): (r: string)
    ensures StartsWith(r, "veo_") && EndsWith(r, ".mp4")
    ensures NoSlash(r)
  {
    var safe := SanitizeFilename(prompt, 30);
    var indexPart := NumberField(index);
    var stampPart := NumberField(stamp);
    SafeNameHasNoSlash(safe);
    Framed("veo_", safe, indexPart, stampPart, ".mp4");
    "veo_" + safe + indexPart + stampPart + ".mp4"
  }

  /** `_` and the number, when there is one. */
  function NumberField(n: Option<int>): (r: string)
    ensures NoSlash(r)
  {
    if n.Some? then "_" + IntToDecimal(n.value) else ""
  }

  lemma SafeNameHasNoSlash(s: string)
    requires SafeName(s)
    ensures NoSlash(s)
  {
  }

  lemma ConcatAssociates(a: string, b: string, c: string)
    ensures a + (b + c) == a + b + c
  {
  }

  /** A name framed by a prefix and an extension starts and ends with them. */
  lemma Framed(prefix: string, a: string, b: string, c: string, ext: string)
    requires prefix == "veo_" && ext == ".mp4"
    requires NoSlash(a) && NoSlash(b) && NoSlash(c)
    ensures StartsWith(prefix + a + b + c + ext, prefix) && EndsWith(prefix + a + b + c + ext, ext)
    ensures NoSlash(prefix + a + b + c + ext)
  {
    var s := prefix + a + b + c + ext;
    assert s[..|prefix|] == prefix;
    assert s[|s| - |ext|..] == ext;
    assert NoSlash(prefix) && NoSlash(ext);
    NoSlashConcat(prefix, a);
    NoSlashConcat(prefix + a, b);
    NoSlashConcat(prefix + a + b, c);
    NoSlashConcat(prefix + a + b + c, ext);
  }

  predicate NoSlash(s: string) {
    forall k :: 0 <= k < |s| ==> s[k] != '/'
  }

  lemma NoSlashConcat(a: string, b: string)
    requires NoSlash(a) && NoSlash(b)
    ensures NoSlash(a + b)
  {
  }

  predicate NoUnderscore(s: string) {
    forall i :: 0 <= i < |s| ==> s[i] != '_'
  }

  lemma DecimalHasNoUnderscore(i: int)
    ensures NoUnderscore(IntToDecimal(i))
  {
  }

  /** The text after the last underscore (all of it when there is none). */
  function AfterLastUnderscore(s: string): (r: string)
    ensures |r| <= |s|
    decreases |s|
  {
    if s == [] || s[|s| - 1] == '_' then []
    else AfterLastUnderscore(s[..|s| - 1]) + [s[|s| - 1]]
  }

  lemma {:induction false} AfterLastUnderscoreOf(a: string, b: string)
    requires NoUnderscore(b)
    ensures AfterLastUnderscore(a + "_" + b) == b
    decreases |b|
  {
    var s := a + "_" + b;
    if b != [] {
      var b' := b[..|b| - 1];
      assert s[..|s| - 1] == a + "_" + b';
      AfterLastUnderscoreOf(a, b');
      assert b == b' + [b[|b| - 1]];
    }
  }

  /** Splitting at the last underscore is unambiguous. */
  lemma SplitAtLastUnderscore(a: string, b: string, c: string, d: string)
    requires a + "_" + b == c + "_" + d
    requires NoUnderscore(b) && NoUnderscore(d)
    ensures a == c && b == d
  {
    var s := a + "_" + b;
    AfterLastUnderscoreOf(a, b);
    AfterLastUnderscoreOf(c, d);
    assert a == s[..|a|];
    assert c == s[..|c|];
  }

  /** The name of a batch job: prefix and sanitized prompt, index, clock
      reading. */
  lemma BatchFilenameFields(p: string, i: int, t: int)
    ensures GenerateFilename(p, Some(i), Some(t))
            == "veo_" + SanitizeFilename(p, 30) + "_" + IntToDecimal(i) + "_" + IntToDecimal(t) + ".mp4"
  {
    var x := "veo_" + SanitizeFilename(p, 30);
    var di, dt := IntToDecimal(i), IntToDecimal(t);
    assert NumberField(Some(i)) == "_" + di && NumberField(Some(t)) == "_" + dt;
    ConcatAssociates(x, "_", di);
    ConcatAssociates(x + "_" + di, "_", dt);
  }

  /** In `x_i_t.mp4`, with no underscore in i or t, the field i is determined. */
  lemma IndexFieldDetermined(x: string, y: string, di: string, dj: string, dt: string, du: string)
    requires x + "_" + di + "_" + dt + ".mp4" == y + "_" + dj + "_" + du + ".mp4"
    requires NoUnderscore(di) && NoUnderscore(dj) && NoUnderscore(dt) && NoUnderscore(du)
    ensures di == dj
  {
    var left := x + "_" + di + "_" + dt;
    var right := y + "_" + dj + "_" + du;
    assert left == (left + ".mp4")[..|left|];
    assert right == (right + ".mp4")[..|right|];
    SplitAtLastUnderscore(x + "_" + di, dt, y + "_" + dj, du);
    SplitAtLastUnderscore(x, di, y, dj);
  }

  /** A generated name determines its index, whatever the prompts and the
      clock readings: two jobs of one batch never share an output name. */
  lemma BatchFilenamesDistinct(p: string, q: string, i: int, j: int, t: int, u: int)
    ensures GenerateFilename(p, Some(i), Some(t)) == GenerateFilename(q, Some(j), Some(u)) ==> i == j
  {
    var x := "veo_" + SanitizeFilename(p, 30);
    var y := "veo_" + SanitizeFilename(q, 30);
    var di, dj, dt, du := IntToDecimal(i), IntToDecimal(j), IntToDecimal(t), IntToDecimal(u);
    BatchFilenameFields(p, i, t);
    BatchFilenameFields(q, j, u);
    if GenerateFilename(p, Some(i), Some(t)) == GenerateFilename(q, Some(j), Some(u)) {
      DecimalHasNoUnderscore(i);
      DecimalHasNoUnderscore(j);
      DecimalHasNoUnderscore(t);
      DecimalHasNoUnderscore(u);
      IndexFieldDetermined(x, y, di, dj, dt, du);
      IntToDecimalInjective(i, j);
    }
  }

  // ---------------------------------------------------------------------
  // parse_video_uri
  // ---------------------------------------------------------------------

  const GoogleFilesPrefix: string := "https://generativelanguage.googleapis.com/"
  const ApiVersionSegment: string := "/v1beta"
  const DownloadSegment: string := "/download"

  /** The path part of the video URI: every occurrence of the Google prefix is
      removed, but only when the URI starts with it. */
  function RelativeVideoPath(videoUri: string): string {
    if StartsWith(videoUri, GoogleFilesPrefix) then ReplaceAll(videoUri, GoogleFilesPrefix, "")
    else videoUri
  }

  /** The download base: every `/v1beta` becomes `/download`, but only when
      the base URL ends with `/v1beta`. */
  function DownloadBase(baseUrl: string): string {
    if EndsWith(baseUrl, ApiVersionSegment) then ReplaceAll(baseUrl, ApiVersionSegment, DownloadSegment)
    else baseUrl
  }

  /** `parse_video_uri(video_uri, base_url)`. */
  function ParseVideoUri(videoUri: string, baseUrl: string): string {
    DownloadBase(baseUrl) + "/" + RelativeVideoPath(videoUri)
  }

  /** A text lacking one of the pattern's characters does not contain it. */
  lemma NoOccurrenceWithoutChar(s: string, pat: string, k: int)
    requires 0 <= k < |pat|
    requires forall i :: 0 <= i < |s| ==> s[i] != pat[k]
    ensures !Occurs(s, pat)
  {
    forall i | 0 <= i <= |s| ensures !MatchAt(s, pat, i) {
      if i + |pat| <= |s| {
        assert s[i..i + |pat|][k] == s[i + k];
      }
    }
  }

  /** No occurrence of a pattern whose first character does not recur in it
      can start inside a text that does not contain it, when the pattern
      follows that text. */
  lemma NoOccurrenceBeforePattern(a: string, pat: string, rest: string)
    requires pat != [] && !Occurs(a, pat)
    requires forall k :: 1 <= k < |pat| ==> pat[k] != pat[0]
    ensures forall i :: 0 <= i < |a| ==> !MatchAt(a + (pat + rest), pat, i)
  {
    var s := a + (pat + rest);
    forall i | 0 <= i < |a| ensures !MatchAt(s, pat, i) {
      if i + |pat| <= |a| {
        assert s[i..i + |pat|] == a[i..i + |pat|];
        assert !MatchAt(a, pat, i);
      } else if i + |pat| <= |s| {
        var k := |a| - i;
        assert s[i..i + |pat|][k] == s[|a|] == pat[0];
      }
    }
  }

  /** The intended reading of the rewrite: when the Google prefix and
      `/v1beta` each occur once, where the rewrite looks for them, the result
      is the base with its last segment renamed, a slash and the path. */
  lemma ParseVideoUriSingleOccurrences(stem: string, path: string)
    requires !Occurs(stem, ApiVersionSegment) && !Occurs(path, GoogleFilesPrefix)
    ensures ParseVideoUri(GoogleFilesPrefix + path, stem + ApiVersionSegment)
            == stem + DownloadSegment + "/" + path
  {
    assert StartsWith(GoogleFilesPrefix + path, GoogleFilesPrefix);
    ReplaceAllLeading(GoogleFilesPrefix, path, "");
    ReplaceAllWithoutOccurrence(path, GoogleFilesPrefix, "");
    assert RelativeVideoPath(GoogleFilesPrefix + path) == path;
    var base := stem + ApiVersionSegment;
    assert EndsWith(base, ApiVersionSegment);
    NoOccurrenceBeforePattern(stem, ApiVersionSegment, []);
    assert ApiVersionSegment + [] == ApiVersionSegment;
    ReplaceAllSkips(stem, ApiVersionSegment, ApiVersionSegment, DownloadSegment);
    ReplaceAllLeading(ApiVersionSegment, [], DownloadSegment);
    assert DownloadBase(base) == stem + DownloadSegment;
  }

  /** A URI that does not start with the Google prefix is used as it is. */
  lemma ParseVideoUriKeepsRelativeUri(videoUri: string, baseUrl: string)
    requires !StartsWith(videoUri, GoogleFilesPrefix)
    ensures ParseVideoUri(videoUri, baseUrl) == DownloadBase(baseUrl) + "/" + videoUri
  {
  }

  lemma ExampleStemLacksSegment(stem: string)
    requires stem == "https://api.thucchien.ai/gemini"
    ensures !Occurs(stem, ApiVersionSegment)
  {
    NoOccurrenceWithoutChar(stem, ApiVersionSegment, 1);
  }

  lemma ExamplePathLacksPrefix(path: string)
    requires path == "v1beta/files/abc123"
    ensures !Occurs(path, GoogleFilesPrefix)
  {
  }

  lemma ExampleJoin(stem: string, path: string)
    requires stem == "https://api.thucchien.ai/gemini" && path == "v1beta/files/abc123"
    ensures stem + DownloadSegment + "/" + path == "https://api.thucchien.ai/gemini/download/v1beta/files/abc123"
  {
  }

  /** The example of the source's documentation: the base
      `https://api.thucchien.ai/gemini/v1beta` and the URI
      `https://generativelanguage.googleapis.com/v1beta/files/abc123`. */
  lemma ParseVideoUriExample(stem: string, path: string)
    requires stem == "https://api.thucchien.ai/gemini" && path == "v1beta/files/abc123"
    ensures ParseVideoUri(GoogleFilesPrefix + path, stem + ApiVersionSegment)
            == "https://api.thucchien.ai/gemini/download/v1beta/files/abc123"
  {
    ExampleStemLacksSegment(stem);
    ExamplePathLacksPrefix(path);
    ParseVideoUriSingleOccurrences(stem, path);
    ExampleJoin(stem, path);
  }

  /** A segment ending a text that lacks it is replaced once. */
  lemma ReplaceFinalSegment(mid: string)
    requires !Occurs(mid, ApiVersionSegment)
    ensures ReplaceAll(mid + ApiVersionSegment, ApiVersionSegment, DownloadSegment) == mid + DownloadSegment
  {
    NoOccurrenceBeforePattern(mid, ApiVersionSegment, []);
    assert ApiVersionSegment + [] == ApiVersionSegment;
    ReplaceAllSkips(mid, ApiVersionSegment, ApiVersionSegment, DownloadSegment);
    ReplaceAllLeading(ApiVersionSegment, [], DownloadSegment);
  }

  lemma ReplaceTwoSegments(host: string, mid: string)
    requires !Occurs(host, ApiVersionSegment) && !Occurs(mid, ApiVersionSegment)
    ensures ReplaceAll(host + ApiVersionSegment + mid + ApiVersionSegment, ApiVersionSegment, DownloadSegment)
            == host + DownloadSegment + mid + DownloadSegment
  {
    var tail := mid + ApiVersionSegment;
    assert host + ApiVersionSegment + mid + ApiVersionSegment == host + (ApiVersionSegment + tail);
    NoOccurrenceBeforePattern(host, ApiVersionSegment, tail);
    ReplaceAllSkips(host, ApiVersionSegment + tail, ApiVersionSegment, DownloadSegment);
    ReplaceAllLeading(ApiVersionSegment, tail, DownloadSegment);
    ReplaceFinalSegment(mid);
  }

  /** `replace` rewrites every `/v1beta` of the base, not only the final one
      that the `endswith` test looked at. */
  lemma ParseVideoUriRewritesEverySegment(host: string, mid: string, path: string)
    requires forall i :: 0 <= i < |host| ==> host[i] != 'v'
    requires forall i :: 0 <= i < |mid| ==> mid[i] != 'v'
    requires !StartsWith(path, GoogleFilesPrefix)
    ensures ParseVideoUri(path, host + ApiVersionSegment + mid + ApiVersionSegment)
            == host + DownloadSegment + mid + DownloadSegment + "/" + path
  {
    var base := host + ApiVersionSegment + mid + ApiVersionSegment;
    assert EndsWith(base, ApiVersionSegment) by {
      assert base == (host + ApiVersionSegment + mid) + ApiVersionSegment;
    }
    NoOccurrenceWithoutChar(host, ApiVersionSegment, 1);
    NoOccurrenceWithoutChar(mid, ApiVersionSegment, 1);
    ReplaceTwoSegments(host, mid);
  }

  // ---------------------------------------------------------------------
  // validate_prompt
  // ---------------------------------------------------------------------

  const MaxPromptLength: nat := 2000
  const MinPromptContent: nat := 3

  const EmptyPromptMessage: string := "Prompt cannot be empty"
  const LongPromptMessage: string := "Prompt exceeds maximum length of 2000 characters"
  const ShortPromptMessage: string := "Prompt too short (minimum 3 characters)"

  /** `validate_prompt(prompt)`: blank first, then the raw length, then the
      length of the stripped text. */
  function ValidatePrompt(prompt: string): (r: (bool, Option<string>))
    ensures r.0 <==> r.1.None?
    ensures r.0 <==> StripSpace(prompt) != [] && |prompt| <= MaxPromptLength
                      && |StripSpace(prompt)| >= MinPromptContent
    ensures StripSpace(prompt) == [] ==> r.1 == Some(EmptyPromptMessage)
    ensures StripSpace(prompt) != [] && |prompt| > MaxPromptLength ==> r.1 == Some(LongPromptMessage)
    ensures StripSpace(prompt) != [] && |prompt| <= MaxPromptLength && |StripSpace(prompt)| < MinPromptContent
            ==> r.1 == Some(ShortPromptMessage)
  {
    if prompt == [] || StripSpace(prompt) == [] then (false, Some(EmptyPromptMessage))
    else if |prompt| > MaxPromptLength then (false, Some(LongPromptMessage))
    else if |StripSpace(prompt)| < MinPromptContent then (false, Some(ShortPromptMessage))
    else (true, None)
  }
}

/**
 * `sanitize_filename` (app.py): turns a media title into a file-system-safe
 * name by a pipeline of character-class rewrites, a length cap and a
 * `download` fallback. Each regular-expression step is one function here.
 */
module Filenames {
  import opened Text

  const Fallback: string := "download"
  const DefaultMaxLength: nat := 100

  /** `[<>:"/\\|?*\x00-\x1f]`: characters removed first. */
  predicate IsReserved(c: char) {
    c in "<>:\"/\\|?*" || c <= '\U{1F}'
  }

  /** `\w`, restricted to ASCII (see README). */
  predicate IsWordChar(c: char) {
    IsAsciiLetter(c) || IsAsciiDigit(c) || c == '_'
  }

  /** `[\s\-]` */
  predicate IsSeparator(c: char) {
    IsSpace(c) || c == '-'
  }

  /** Characters `strip('._')` removes. */
  predicate IsEdge(c: char) {
    c == '.' || c == '_'
  }

  /** Only word characters and dots. */
  predicate CleanChars(s: string) {
    forall i :: 0 <= i < |s| ==> IsWordChar(s[i]) || s[i] == '.'
  }

  predicate NoDoubleUnderscore(s: string) {
    forall i :: 0 <= i < |s| - 1 ==> !(s[i] == '_' && s[i + 1] == '_')
  }

  /** No `.` or `_` at either end. */
  predicate Trimmed(s: string) {
    s == [] || (!IsEdge(s[0]) && !IsEdge(s[|s| - 1]))
  }

  /** The shape every sanitized name has. */
  predicate SafeName(s: string) {
    s != [] && CleanChars(s) && NoDoubleUnderscore(s) && Trimmed(s)
  }

  /** Step 1: `re.sub(r'[<>:"/\\|?*\x00-\x1f]', '', s)` */
  function DropReserved(s: string): (r: string)
    ensures forall i :: 0 <= i < |r| ==> !IsReserved(r[i]) && r[i] in s
  {
    if |s| == 0 then ""
    else (if IsReserved(s[0]) then "" else [s[0]]) + DropReserved(s[1..])
  }

  /** Step 2: `re.sub(r'[\s\-]+', '_', s)`: each maximal run of separators becomes one `_`. */
  function JoinSeparators(s: string): (r: string)
    ensures forall i :: 0 <= i < |r| ==> !IsSeparator(r[i]) && (r[i] == '_' || r[i] in s)
  {
    if |s| == 0 then ""
    else if IsSeparator(s[0]) && |s| > 1 && IsSeparator(s[1]) then JoinSeparators(s[1..])
    else [if IsSeparator(s[0]) then '_' else s[0]] + JoinSeparators(s[1..])
  }

  /** Step 3: `re.sub(r'[^\w\-_.]', '', s)` */
  function KeepNameChars(s: string): (r: string)
    ensures forall i :: 0 <= i < |r| ==> (IsWordChar(r[i]) || r[i] == '-' || r[i] == '.') && r[i] in s
  {
    if |s| == 0 then ""
    else (if IsWordChar(s[0]) || s[0] == '-' || s[0] == '.' then [s[0]] else "") + KeepNameChars(s[1..])
  }

  /** Step 4: `re.sub(r'_+', '_', s)` */
  function SquashUnderscores(s: string): (r: string)
    ensures NoDoubleUnderscore(r)
    ensures forall i :: 0 <= i < |r| ==> r[i] in s
    ensures |s| > 0 ==> |r| > 0 && r[0] == s[0]
  {
    if |s| == 0 then ""
    else if |s| > 1 && s[0] == '_' && s[1] == '_' then SquashUnderscores(s[1..])
    else [s[0]] + SquashUnderscores(s[1..])
  }

  function StripEdges(s: string): string {
    StripBy(s, IsEdge)
  }

  /** `sanitize_filename(title, max_length)`; SanitizeSafe states the shape of every result. */
  function Sanitize(title: string, maxLength: nat): (r: string)
    ensures r != []
    ensures title == [] ==> r == Fallback
  {
    if title == [] then Fallback
    else
      var f := StripEdges(SquashUnderscores(KeepNameChars(JoinSeparators(DropReserved(title)))));
      var g := if |f| > maxLength then StripEdges(f[..maxLength]) else f;
      if g == [] then Fallback else g
  }

  /** Stripping `._` keeps a slice, so it keeps the character and underscore properties. */
  lemma StripEdgesSafe(s: string)
    requires CleanChars(s) && NoDoubleUnderscore(s)
    ensures var r := StripEdges(s); CleanChars(r) && NoDoubleUnderscore(r) && Trimmed(r) && |r| <= |s|
  {
    var r := StripEdges(s);
    var lo, hi :| 0 <= lo <= hi <= |s| && r == s[lo..hi];
    assert forall i :: 0 <= i < |r| ==> r[i] == s[lo + i];
  }

  /** Before stripping, the name is made of word characters and dots only, with no `__`. */
  lemma {:induction false} PipelineShape(title: string)
    ensures var q := SquashUnderscores(KeepNameChars(JoinSeparators(DropReserved(title))));
            CleanChars(q) && NoDoubleUnderscore(q)
  {
    var j := JoinSeparators(DropReserved(title));
    var k := KeepNameChars(j);
    var q := SquashUnderscores(k);
    forall i | 0 <= i < |k| ensures IsWordChar(k[i]) || k[i] == '.' {
      assert k[i] in j;
      var p :| 0 <= p < |j| && j[p] == k[i];
      assert !IsSeparator(j[p]);
    }
    forall i | 0 <= i < |q| ensures IsWordChar(q[i]) || q[i] == '.' {
      assert q[i] in k;
    }
  }

  /** `download` itself has the sanitized shape. */
  lemma FallbackIsSafe()
    ensures SafeName(Fallback)
  {
    assert forall i :: 0 <= i < |Fallback| ==> IsAsciiLetter(Fallback[i]);
  }

  /** The length cap: cut to `maxLength`, then strip the ends again. */
  lemma CapSafe(f: string, maxLength: nat)
    requires CleanChars(f) && NoDoubleUnderscore(f) && |f| > maxLength
    ensures var g := StripEdges(f[..maxLength]);
            CleanChars(g) && NoDoubleUnderscore(g) && Trimmed(g) && |g| <= maxLength
  {
    var h := f[..maxLength];
    assert forall i :: 0 <= i < |h| ==> h[i] == f[i];
    assert CleanChars(h) && NoDoubleUnderscore(h);
    StripEdgesSafe(h);
  }

  /**
   * Every sanitized name is non-empty, made only of word characters and dots
   * (so no whitespace, hyphen, reserved or control character), has no `__`,
   * no leading or trailing `.` or `_`, and fits `maxLength` unless it is the
   * `download` fallback.
   */
  lemma {:induction false} SanitizeSafe(title: string, maxLength: nat)
    ensures SafeName(Sanitize(title, maxLength))
    ensures Sanitize(title, maxLength) == Fallback || |Sanitize(title, maxLength)| <= maxLength
    ensures forall i :: 0 <= i < |Sanitize(title, maxLength)| ==>
              var c := Sanitize(title, maxLength)[i]; !IsSpace(c) && c != '-' && !IsReserved(c)
  {
    FallbackIsSafe();
    if title != [] {
      var q := SquashUnderscores(KeepNameChars(JoinSeparators(DropReserved(title))));
      PipelineShape(title);
      StripEdgesSafe(q);
      var f := StripEdges(q);
      if |f| > maxLength {
        CapSafe(f, maxLength);
      }
    }
    var r := Sanitize(title, maxLength);
    assert CleanChars(r);
    forall i | 0 <= i < |r| ensures !IsSpace(r[i]) && r[i] != '-' && !IsReserved(r[i]) {
      assert IsWordChar(r[i]) || r[i] == '.';
    }
  }

  lemma {:induction false} DropReservedKeeps(s: string)
    requires CleanChars(s)
    ensures DropReserved(s) == s
  {
    if |s| > 0 {
      DropReservedKeeps(s[1..]);
      assert [s[0]] + s[1..] == s;
    }
  }

  lemma {:induction false} JoinSeparatorsKeeps(s: string)
    requires CleanChars(s)
    ensures JoinSeparators(s) == s
  {
    if |s| > 0 {
      JoinSeparatorsKeeps(s[1..]);
      assert [s[0]] + s[1..] == s;
    }
  }

  lemma {:induction false} KeepNameCharsKeeps(s: string)
    requires CleanChars(s)
    ensures KeepNameChars(s) == s
  {
    if |s| > 0 {
      KeepNameCharsKeeps(s[1..]);
      assert [s[0]] + s[1..] == s;
    }
  }

  lemma {:induction false} SquashUnderscoresKeeps(s: string)
    requires NoDoubleUnderscore(s)
    ensures SquashUnderscores(s) == s
  {
    if |s| > 0 {
      assert NoDoubleUnderscore(s[1..]) by {
        assert forall i :: 0 <= i < |s[1..]| ==> s[1..][i] == s[i + 1];
      }
      SquashUnderscoresKeeps(s[1..]);
      assert [s[0]] + s[1..] == s;
    }
  }

  /** A name that already has the sanitized shape and fits is returned unchanged. */
  lemma SanitizeKeepsSafeName(s: string, maxLength: nat)
    requires SafeName(s) && |s| <= maxLength
    ensures Sanitize(s, maxLength) == s
  {
    DropReservedKeeps(s);
    JoinSeparatorsKeeps(s);
    KeepNameCharsKeeps(s);
    SquashUnderscoresKeeps(s);
    assert LeadingCount(s, IsEdge) == 0;
    assert TrailingCount(s, IsEdge) == 0;
    assert s[0..|s|] == s;
  }

  /** Sanitizing twice is sanitizing once, whenever the cap leaves room for `download`. */
  lemma SanitizeIdempotent(title: string, maxLength: nat)
    requires maxLength >= |Fallback|
    ensures Sanitize(Sanitize(title, maxLength), maxLength) == Sanitize(title, maxLength)
  {
    SanitizeSafe(title, maxLength);
    SanitizeKeepsSafeName(Sanitize(title, maxLength), maxLength);
  }
}

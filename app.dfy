/** The string helpers of the web layer: the coverage-URL check, the
    extraction of the event's slug from the URL, and the cleaning of hero
    names into spreadsheet sheet names. The two regular expressions are
    modelled as Python's backtracking matcher runs them, and each is then
    characterised declaratively. */
module App {
  import opened Wrappers
  import opened Text

  /** No line break anywhere in `s`. */
  predicate NoNewline(s: string) {
    '\n' !in s
  }

  /** Where `$` matches (no MULTILINE flag): at the end, or just before a
      final line break. */
  predicate DollarAt(s: string, p: nat)
    ensures DollarAt(s, p) ==> |s| - 1 <= p <= |s|
  {
    p == |s| || (p + 1 == |s| && s[p] == '\n')
  }

  /** The end of a greedy run starting at `i` of characters other than
      `stop`: `[^/]+` stops at '/', `.+` at a line break. */
  function RunEnd(s: string, i: nat, stop: char): (e: nat)
    requires i <= |s|
    ensures i <= e <= |s|
    ensures stop !in s[i..e]
    ensures e < |s| ==> s[e] == stop
    ensures forall j :: e < j <= |s| ==> stop in s[i..j]
    decreases |s| - i
  {
    if i == |s| || s[i] == stop then
      assert forall j :: i < j <= |s| ==> s[i..j][0] == s[i];
      i
    else
      var e := RunEnd(s, i + 1, stop);
      assert s[i..e] == [s[i]] + s[i + 1..e];
      assert forall j :: e < j <= |s| ==> s[i + 1..j] == s[i..j][1..];
      e
  }

  // ---------------------------------------------------------------------
  // is_valid_fab_url: re.match(r"^https://fabtcg\.com/en/coverage/.+/$", url)
  // ---------------------------------------------------------------------

  const FAB_PREFIX: string := "https://fabtcg.com/en/coverage/"

  /** Backtracking of `.+` that matched up to `j`: give back characters one by
      one (never the first) until `/$` matches next. */
  function SlashEndFrom(s: string, lo: nat, j: nat): (found: bool)
    requires lo < j <= |s|
    ensures found ==> |s| >= lo + 2 && (s[|s| - 1] == '/' || s[|s| - 1] == '\n')
    decreases j
  {
    (j < |s| && s[j] == '/' && DollarAt(s, j + 1)) || (j > lo + 1 && SlashEndFrom(s, lo, j - 1))
  }

  /** `is_valid_fab_url`: the literal prefix, then `.+` run greedily to the
      first line break and backtracked until `/$` follows. */
  predicate IsValidFabUrl(url: string)
    ensures IsValidFabUrl(url) ==>
      |url| >= |FAB_PREFIX| + 2 && url[..|FAB_PREFIX|] == FAB_PREFIX
      && (url[|url| - 1] == '/' || url[|url| - 1] == '\n')
  {
    var n := |FAB_PREFIX|;
    && |url| >= n && url[..n] == FAB_PREFIX
    && var e := RunEnd(url, n, '\n');
       e > n && SlashEndFrom(url, n, e)
  }

  /** What the backtracking finds: some end `k` of the `.+` part, after the
      first character and within the run, followed by '/' and `$`. */
  lemma {:induction false} SlashEndFromSpec(s: string, lo: nat, j: nat)
    requires lo < j <= |s|
    ensures SlashEndFrom(s, lo, j) <==>
      exists k :: lo < k <= j && k < |s| && s[k] == '/' && DollarAt(s, k + 1)
    decreases j
  {
    if j > lo + 1 {
      SlashEndFromSpec(s, lo, j - 1);
    }
  }

  /** The accepted URLs, declaratively: the prefix, a non-empty middle
      without line breaks, and a final '/' (optionally followed by one line
      break, which `$` lets through). */
  predicate FabUrlShape(url: string) {
    var n := |FAB_PREFIX|;
    && |url| >= n + 2 && url[..n] == FAB_PREFIX
    && ((url[|url| - 1] == '/' && NoNewline(url[n..|url| - 1]))
        || (|url| >= n + 3 && url[|url| - 2] == '/' && url[|url| - 1] == '\n'
            && NoNewline(url[n..|url| - 2])))
  }

  /** A stretch without line breaks has none in any prefix either. */
  lemma NoNewlinePrefix(s: string, i: nat, k: nat, e: nat)
    requires i <= k <= e <= |s| && NoNewline(s[i..e])
    ensures NoNewline(s[i..k])
  {
    assert s[i..k] == s[i..e][..k - i];
  }

  /** Every URL of that shape is accepted. */
  lemma ShapeIsValid(url: string)
    requires FabUrlShape(url)
    ensures IsValidFabUrl(url)
  {
    var n := |FAB_PREFIX|;
    var e := RunEnd(url, n, '\n');
    var k := if url[|url| - 1] == '/' && NoNewline(url[n..|url| - 1]) then |url| - 1 else |url| - 2;
    assert NoNewline(url[n..k]);
    assert k <= e;
    SlashEndFromSpec(url, n, e);
    assert url[k] == '/' && DollarAt(url, k + 1);
  }

  /** Every accepted URL has that shape. */
  lemma ValidHasShape(url: string)
    requires IsValidFabUrl(url)
    ensures FabUrlShape(url)
  {
    var n := |FAB_PREFIX|;
    var e := RunEnd(url, n, '\n');
    SlashEndFromSpec(url, n, e);
    var k :| n < k <= e && k < |url| && url[k] == '/' && DollarAt(url, k + 1);
    NoNewlinePrefix(url, n, k, e);
  }

  /** The matcher accepts exactly the URLs of that shape. */
  lemma ValidFabUrlShape(url: string)
    ensures IsValidFabUrl(url) <==> FabUrlShape(url)
  {
    if FabUrlShape(url) { ShapeIsValid(url); }
    if IsValidFabUrl(url) { ValidHasShape(url); }
  }

  /** For a URL without line breaks: valid exactly when it starts with the
      coverage prefix, ends with '/', and has at least one character between. */
  lemma ValidFabUrlPlain(url: string)
    requires NoNewline(url)
    ensures IsValidFabUrl(url) <==>
      |url| >= |FAB_PREFIX| + 2 && url[..|FAB_PREFIX|] == FAB_PREFIX && url[|url| - 1] == '/'
  {
    ValidFabUrlShape(url);
    var n := |FAB_PREFIX|;
    if |url| >= n + 2 {
      assert url[|url| - 1] in url;
      assert forall c :: c in url[n..|url| - 1] ==> c in url;
    }
  }

  // ---------------------------------------------------------------------
  // get_last_segment: re.compile(r"(?<=\/)[^\/]+(?=(?:\/)?$)").search(url)
  // ---------------------------------------------------------------------

  /** The lookahead `(?=(?:\/)?$)` at `p`: an optional '/' (tried first), then `$`. */
  predicate SlashThenEndAt(s: string, p: nat)
    ensures SlashThenEndAt(s, p) ==> |s| - 2 <= p <= |s|
    ensures NoNewline(s) ==> (SlashThenEndAt(s, p) <==> p == |s| || (p + 1 == |s| && s[p] == '/'))
  {
    (p < |s| && s[p] == '/' && DollarAt(s, p + 1)) || DollarAt(s, p)
  }

  /** Backtracking of `[^/]+` from `j` down to `i + 1`: the longest end at
      which the lookahead holds. */
  function BacktrackEnd(s: string, i: nat, j: nat): (r: Option<nat>)
    requires i < j <= |s|
    ensures r.Some? ==> i < r.value <= j && SlashThenEndAt(s, r.value)
    ensures r.Some? ==> forall k :: r.value < k <= j ==> !SlashThenEndAt(s, k)
    ensures r.None? ==> forall k :: i < k <= j ==> !SlashThenEndAt(s, k)
    decreases j
  {
    if SlashThenEndAt(s, j) then Some(j)
    else if j == i + 1 then None
    else BacktrackEnd(s, i, j - 1)
  }

  /** One attempt of the pattern at position `i`: the lookbehind wants a '/'
      just before, then the greedy run of non-'/' characters, backtracked
      until the lookahead holds. The result is the end of the match. */
  function MatchAt(s: string, i: nat): (r: Option<nat>)
    requires i <= |s|
    ensures r.Some? ==> 1 <= i < r.value <= |s| && s[i - 1] == '/'
    ensures r.Some? ==> '/' !in s[i..r.value] && SlashThenEndAt(s, r.value)
    ensures r.None? ==>
      forall j :: (i < j <= |s| && i >= 1 && s[i - 1] == '/' && '/' !in s[i..j]) ==> !SlashThenEndAt(s, j)
  {
    if i == 0 || s[i - 1] != '/' then None
    else
      var e := RunEnd(s, i, '/');
      if e == i then None
      else
        var r := BacktrackEnd(s, i, e);
        assert r.Some? ==> s[i..r.value] == s[i..e][..r.value - i];
        r
  }

  /** `search`: the leftmost position from `i` on where an attempt succeeds,
      with the end of that match. */
  function SearchFrom(s: string, i: nat): (r: Option<(nat, nat)>)
    requires i <= |s|
    ensures r.Some? ==> i <= r.value.0 <= |s| && MatchAt(s, r.value.0) == Some(r.value.1)
    ensures r.Some? ==> forall k :: i <= k < r.value.0 ==> MatchAt(s, k).None?
    ensures r.None? ==> forall k :: i <= k <= |s| ==> MatchAt(s, k).None?
    decreases |s| - i
  {
    match MatchAt(s, i)
    case Some(j) => Some((i, j))
    case None => if i == |s| then None else SearchFrom(s, i + 1)
  }

  /** `get_last_segment`: the text of the first match, if any. Any segment
      it returns is non-empty and holds no '/'. */
  function GetLastSegment(url: string): (r: Option<string>)
    ensures r.Some? ==> r.value != "" && '/' !in r.value
  {
    match SearchFrom(url, 0)
    case Some((i, j)) => Some(url[i..j])
    case None => None
  }

  /** Without any '/', nothing is found. */
  lemma NoSlashNoSegment(url: string)
    requires '/' !in url
    ensures GetLastSegment(url) == None
  {
    forall k | 0 <= k < |url| ensures url[k] != '/' {
      assert url[k] in url;
    }
  }

  /** A URL ending in "//" has no segment at its end. */
  lemma DoubleSlashNoSegment(url: string)
    requires |url| >= 2 && url[|url| - 2] == '/' && url[|url| - 1] == '/'
    ensures GetLastSegment(url) == None
  {
    forall i | 0 <= i <= |url| ensures MatchAt(url, i).None? {
      forall j | i < j <= |url| && '/' !in url[i..j] ensures !SlashThenEndAt(url, j) {
        assert url[j - 1] == url[i..j][j - 1 - i];
      }
    }
  }

  /** `p + "/" + seg` and `p + "/" + seg + "/"` both give `seg`, for any
      prefix `p` and any non-empty `seg` without '/' or line breaks. */
  lemma LastSegmentOf(p: string, seg: string, trailing: bool)
    requires seg != "" && '/' !in seg && NoNewline(seg)
    ensures GetLastSegment(p + "/" + seg + (if trailing then "/" else "")) == Some(seg)
  {
    var url := p + "/" + seg + (if trailing then "/" else "");
    var i0 := |p| + 1;
    var j0 := i0 + |seg|;
    assert url[i0 - 1] == '/';
    assert url[i0..j0] == seg;
    assert url[|url| - 1] != '\n' by {
      if !trailing { assert url[|url| - 1] == seg[|seg| - 1]; assert seg[|seg| - 1] in seg; }
    }
    // The lookahead holds only at the end of the segment.
    forall j: nat | j <= |url| && SlashThenEndAt(url, j) ensures j == j0 || j == |url| {
    }
    assert !trailing ==> '/' !in url[i0..|url|] by {
      if !trailing { assert url[i0..|url|] == seg; }
    }
    assert trailing ==> url[|url| - 1] == '/';
    // No attempt before the segment's start succeeds: the run would cross the '/' before it.
    forall k | 0 <= k < i0 ensures MatchAt(url, k).None? {
      forall j | k < j <= |url| && j >= j0 ensures '/' in url[k..j] {
        assert url[k..j][i0 - 1 - k] == '/';
      }
    }
    assert MatchAt(url, i0).Some?;
  }

  /** Conversely, for a URL without line breaks a returned segment is what
      follows the last-but-one or last '/': the URL ends with "/" + seg,
      optionally followed by one more '/'. */
  lemma LastSegmentSound(url: string)
    requires NoNewline(url) && GetLastSegment(url).Some?
    ensures var seg := GetLastSegment(url).value;
      || (|url| > |seg| && url[|url| - |seg| - 1] == '/' && url[|url| - |seg|..] == seg)
      || (|url| > |seg| + 1 && url[|url| - |seg| - 2] == '/' && url[|url| - |seg| - 1..|url| - 1] == seg
          && url[|url| - 1] == '/')
  {
    var (i, j) := SearchFrom(url, 0).value;
    assert url[i - 1] == '/';
    if j < |url| {
      assert url[|url| - 1] in url;
    }
  }

  /** A trailing '/' does not change the segment found. */
  lemma TrailingSlash(url: string)
    requires NoNewline(url) && url != "" && url[|url| - 1] != '/'
    ensures GetLastSegment(url + "/") == GetLastSegment(url)
  {
    if '/' in url {
      var k := LastSlash(url);
      var p, seg := url[..k], url[k + 1..];
      assert url == p + "/" + seg + "";
      assert url + "/" == p + "/" + seg + "/";
      assert seg[|seg| - 1] == url[|url| - 1];
      assert forall c :: c in seg ==> c in url;
      LastSegmentOf(p, seg, false);
      LastSegmentOf(p, seg, true);
    } else {
      NoSlashNoSegment(url);
      var s := url + "/";
      forall i | 0 <= i <= |s| ensures MatchAt(s, i).None? {
        if 1 <= i <= |url| { assert s[i - 1] == url[i - 1]; assert url[i - 1] in url; }
      }
    }
  }

  /** The position of the last '/'. */
  function LastSlash(s: string): (k: nat)
    requires '/' in s
    ensures k < |s| && s[k] == '/' && '/' !in s[k + 1..]
  {
    if s[|s| - 1] == '/' then |s| - 1
    else
      var k := LastSlash(s[..|s| - 1]);
      assert s[k + 1..] == s[..|s| - 1][k + 1..] + [s[|s| - 1]];
      k
  }

  // ---------------------------------------------------------------------
  // Sheet names: re.sub(r'[:\\/*?\[\]]', '', hero_name)
  // ---------------------------------------------------------------------

  /** The characters a spreadsheet sheet name may not hold. */
  const INVALID_SHEET_CHARS: set<char> := {':', '\\', '/', '*', '?', '[', ']'}

  /** The sheet name of a hero: its name with every forbidden character deleted. */
  function CleanSheetName(heroName: string): (r: string)
    ensures forall c :: c in r <==> c in heroName && c !in INVALID_SHEET_CHARS
  {
    Without(heroName, INVALID_SHEET_CHARS)
  }

  /** The cleaning keeps the other characters in order: it works character by
      character and distributes over concatenation. */
  lemma CleanSheetNameChars(a: string, b: string, c: char)
    ensures CleanSheetName(a + b) == CleanSheetName(a) + CleanSheetName(b)
    ensures CleanSheetName([c]) == if c in INVALID_SHEET_CHARS then [] else [c]
  {
    WithoutConcat(a, b, INVALID_SHEET_CHARS);
    assert [c][1..] == [];
  }

  /** A clean name stays as it is, so cleaning twice changes nothing more. */
  lemma CleanSheetNameIdempotent(heroName: string)
    ensures CleanSheetName(CleanSheetName(heroName)) == CleanSheetName(heroName)
    ensures (forall c :: c in heroName ==> c !in INVALID_SHEET_CHARS) ==> CleanSheetName(heroName) == heroName
  {
    WithoutIdempotent(heroName, INVALID_SHEET_CHARS);
    if forall c :: c in heroName ==> c !in INVALID_SHEET_CHARS {
      WithoutKeepsClean(heroName, INVALID_SHEET_CHARS);
    }
  }
}

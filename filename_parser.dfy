/** Structural metadata read off an image's file name with the fixed pattern
    `(?P<SOURCE_TITLE>.+)_(?P<DATE>\d{4})_(?P<SOURCE_NUMBER>iss\d+)_(?P<PAGE>Page\d+).jpg`
    applied by `re.match`: anchored at the start only, `.` matching any character but a
    newline, and greedy quantifiers that backtrack. */
module FilenameParser {
  import opened Wrappers
  import opened Text

  /** One way the pattern can match at the start of a name: SOURCE_TITLE is the first `title`
      characters, and `issue` and `page` digits follow `iss` and `Page`. The match spans the
      first End(w) characters; anything after that is not looked at. */
  datatype Split = Split(title: nat, issue: nat, page: nat)

  function End(w: Split): nat {
    w.title + w.issue + w.page + 18
  }

  /** `_`, four digits, `_iss` right after a SOURCE_TITLE of length t. */
  predicate HeadAt(s: string, t: nat) {
    t + 9 <= |s| && s[t] == '_' && DigitsIn(s, t + 1, t + 5) && s[t + 5] == '_'
      && s[t + 6] == 'i' && s[t + 7] == 's' && s[t + 8] == 's'
  }

  /** `_Page` right after `a` digits following `iss`. */
  predicate PageAt(s: string, t: nat, a: nat) {
    1 <= a && t + 14 + a <= |s| && s[t + 9 + a] == '_'
      && s[t + 10 + a] == 'P' && s[t + 11 + a] == 'a' && s[t + 12 + a] == 'g' && s[t + 13 + a] == 'e'
  }

  /** `.jpg` at position q: one non-newline character, then `jpg`. */
  predicate JpgAt(s: string, q: nat) {
    q + 4 <= |s| && s[q] != '\n' && s[q + 1] == 'j' && s[q + 2] == 'p' && s[q + 3] == 'g'
  }

  /** What the pattern asks of the text from the end of SOURCE_TITLE on:
      `_`, four digits, `_iss`, digits, `_Page`, digits, any non-newline character, `jpg`. */
  predicate TailMatches(s: string, w: Split) {
    var t, a, k := w.title, w.issue, w.page;
    && HeadAt(s, t) && DigitsIn(s, t + 9, t + 9 + a) && PageAt(s, t, a)
    && 1 <= k && DigitsIn(s, t + 14 + a, t + 14 + a + k)
    && JpgAt(s, t + 14 + a + k)
  }

  /** `w` is a match of the whole pattern: `.+` takes at least one character, none a newline. */
  predicate IsMatch(s: string, w: Split) {
    TailMatches(s, w) && 1 <= w.title && forall i :: 0 <= i < w.title ==> s[i] != '\n'
  }

  /** The backtracking matcher reaches `v` before `w`: it tries the longest SOURCE_TITLE first,
      and for each title the longest digit runs first. */
  predicate Preferred(v: Split, w: Split) {
    || v.title > w.title
    || (v.title == w.title && v.issue > w.issue)
    || (v.title == w.title && v.issue == w.issue && v.page > w.page)
  }

  predicate NotAfter(w: Split, v: Split) {
    w == v || Preferred(v, w)
  }

  // ---------------------------------------------------------------- the matcher

  /** The end of the pattern once the `iss` digits (a of them) and the `Page` digits (k of them,
      at least one) are taken greedily: the `Page` digits are tried longest first and then one
      shorter, where `.` takes the last digit. */
  function TryPage(s: string, t: nat, a: nat, k: nat): Option<Split> {
    var q := t + 14 + a;
    if JpgAt(s, q + k) then Some(Split(t, a, k))
    else if k >= 2 && JpgAt(s, q + k - 1) then Some(Split(t, a, k - 1))
    else None
  }

  /** The rest of the pattern tried after a SOURCE_TITLE of length t. The `iss` digits must be
      followed by `_`, so only their longest run can work. */
  function TryAt(s: string, t: nat): Option<Split> {
    if !HeadAt(s, t) then None
    else
      var a := DigitRun(s, t + 9);
      if !PageAt(s, t, a) then None
      else
        var k := DigitRun(s, t + 14 + a);
        if k == 0 then None else TryPage(s, t, a, k)
  }

  /** TryAt once the two digit runs are known. */
  lemma TryAtValue(s: string, t: nat, a: nat, k: nat)
    requires HeadAt(s, t) && DigitRun(s, t + 9) == a && PageAt(s, t, a) && DigitRun(s, t + 14 + a) == k && k >= 1
    ensures TryAt(s, t) == TryPage(s, t, a, k)
  {
  }

  /** What TryPage returns after matched `iss` and `Page` digit runs matches the tail. */
  lemma TryPageSound(s: string, t: nat, a: nat, k: nat)
    requires HeadAt(s, t) && DigitsIn(s, t + 9, t + 9 + a) && PageAt(s, t, a)
    requires k >= 1 && DigitsIn(s, t + 14 + a, t + 14 + a + k)
    ensures TryPage(s, t, a, k).Some? ==> TryPage(s, t, a, k).value.title == t && TailMatches(s, TryPage(s, t, a, k).value)
  {
  }

  /** Whatever TryAt returns is a match of the tail after a SOURCE_TITLE of length t. */
  lemma TryAtSound(s: string, t: nat)
    ensures TryAt(s, t).Some? ==> TryAt(s, t).value.title == t && TailMatches(s, TryAt(s, t).value)
  {
    if HeadAt(s, t) {
      var a := DigitRun(s, t + 9);
      if PageAt(s, t, a) {
        var k := DigitRun(s, t + 14 + a);
        if k >= 1 {
          TryAtValue(s, t, a, k);
          TryPageSound(s, t, a, k);
        }
      }
    }
  }

  /** After a matching tail, the greedy `Page` digit run is the tail's own, or one longer
      when the character before `jpg` is a digit. */
  lemma PageRunBounds(s: string, w: Split)
    requires TailMatches(s, w)
    ensures w.page <= DigitRun(s, w.title + 14 + w.issue) <= w.page + 1
  {
    var q := w.title + 14 + w.issue;
    DigitRunAtLeast(s, q, w.page);
    DigitRunAtMost(s, q, q + w.page + 1);
  }

  /** After a matching tail, TryAt takes the tail's own `iss` digits. */
  lemma TryAtAfterTail(s: string, w: Split)
    requires TailMatches(s, w)
    ensures TryAt(s, w.title) == TryPage(s, w.title, w.issue, DigitRun(s, w.title + 14 + w.issue))
  {
    var t, a := w.title, w.issue;
    DigitRunIs(s, t + 9, a);
    DigitRunAtLeast(s, t + 14 + a, w.page);
    TryAtValue(s, t, a, DigitRun(s, t + 14 + a));
  }

  /** If the tail matches with w.page `Page` digits and the greedy run has that many or one more,
      TryPage finds a match with the same `iss` digits and at least w.page `Page` digits. */
  lemma TryPageFindsBest(s: string, w: Split, k: nat)
    requires TailMatches(s, w) && w.page <= k <= w.page + 1
    ensures var r := TryPage(s, w.title, w.issue, k);
      r.Some? && r.value.issue == w.issue && r.value.page >= w.page
  {
  }

  /** Whenever the tail can match after SOURCE_TITLE, TryAt finds a match there, with the same
      `iss` digits and at least as many `Page` digits. */
  lemma TryAtFindsBest(s: string, w: Split)
    requires TailMatches(s, w)
    ensures TryAt(s, w.title).Some?
    ensures TryAt(s, w.title).value.issue == w.issue && TryAt(s, w.title).value.page >= w.page
  {
    PageRunBounds(s, w);
    TryAtAfterTail(s, w);
    TryPageFindsBest(s, w, DigitRun(s, w.title + 14 + w.issue));
  }

  /** Length of the first line: how far `.+` can reach. */
  function LineLength(s: string): (n: nat)
    ensures n <= |s| && (forall i :: 0 <= i < n ==> s[i] != '\n')
    ensures n == |s| || s[n] == '\n'
    decreases |s|
  {
    if s == [] || s[0] == '\n' then 0 else 1 + LineLength(s[1..])
  }

  lemma {:induction false} WithinFirstLine(s: string, n: nat)
    requires n <= |s| && forall i :: 0 <= i < n ==> s[i] != '\n'
    ensures n <= LineLength(s)
    decreases n
  {
    if n > 0 {
      WithinFirstLine(s[1..], n - 1);
    }
  }

  /** Backtracking over SOURCE_TITLE lengths t, t-1, ..., 1. */
  function Search(s: string, t: nat): (r: Option<Split>)
    ensures r.Some? ==> 1 <= r.value.title <= t && TailMatches(s, r.value)
    decreases t
  {
    if t == 0 then None
    else if TryAt(s, t).Some? then TryAtSound(s, t); TryAt(s, t)
    else Search(s, t - 1)
  }

  /** What `re.match` finds: `.+` first takes the whole first line, then gives characters back. */
  function Greedy(s: string): Option<Split> {
    Search(s, LineLength(s))
  }

  /** Among the matches with a SOURCE_TITLE of length t, TryAt finds the first one the
      backtracking order reaches. */
  lemma TryAtFirst(s: string, t: nat)
    ensures forall w :: IsMatch(s, w) && w.title == t ==> TryAt(s, t).Some? && NotAfter(w, TryAt(s, t).value)
  {
    forall w | IsMatch(s, w) && w.title == t
      ensures TryAt(s, t).Some? && NotAfter(w, TryAt(s, t).value)
    {
      TryAtFindsBest(s, w);
    }
  }

  /** Within the first line, what the search finds is a match of the whole pattern. */
  lemma SearchFound(s: string, t: nat)
    requires t <= LineLength(s)
    ensures Search(s, t).Some? ==> IsMatch(s, Search(s, t).value)
  {
  }

  /** The search over titles up to t finds every match with such a title, or one the
      backtracking order reaches earlier. */
  lemma {:induction false} SearchIsFirstMatch(s: string, t: nat)
    ensures forall w :: IsMatch(s, w) && w.title <= t ==> Search(s, t).Some? && NotAfter(w, Search(s, t).value)
    decreases t
  {
    if t > 0 {
      SearchIsFirstMatch(s, t - 1);
      TryAtFirst(s, t);
      var r := TryAt(s, t);
      if r.Some? {
        assert Search(s, t) == r && r.value.title == t;
        forall w | IsMatch(s, w) && w.title < t
          ensures Preferred(r.value, w)
        {
        }
      } else {
        assert Search(s, t) == Search(s, t - 1);
      }
    }
  }

  /** The matcher succeeds exactly when some match exists, and it returns the one the
      backtracking order reaches first: the longest SOURCE_TITLE that still lets the rest match. */
  lemma GreedyIsFirstMatch(s: string)
    ensures Greedy(s).Some? ==> IsMatch(s, Greedy(s).value)
    ensures forall w :: IsMatch(s, w) ==> Greedy(s).Some? && NotAfter(w, Greedy(s).value)
  {
    SearchFound(s, LineLength(s));
    SearchIsFirstMatch(s, LineLength(s));
    forall w | IsMatch(s, w)
      ensures w.title <= LineLength(s)
    {
      WithinFirstLine(s, w.title);
    }
  }

  // ---------------------------------------------------------------- the metadata

  function MismatchError(filename: string): string {
    "Error extracting metadata from filename: Filename " + filename + " does not match the expected pattern"
  }

  /** `match.groupdict()`: the four named groups, prefixes included. */
  function GroupDict(s: string, w: Split): map<string, string>
    requires End(w) <= |s|
  {
    var t, a, k := w.title, w.issue, w.page;
    map["SOURCE_TITLE" := s[..t], "DATE" := s[t + 1..t + 5],
        "SOURCE_NUMBER" := s[t + 6..t + 9 + a], "PAGE" := s[t + 10 + a..t + 14 + a + k]]
  }

  /** The metadata the file name yields: the title, the year, and the issue and page numbers
      with their `iss` and `Page` prefixes stripped; or the error naming the file. */
  function FilenameMetadata(filename: string): Result<map<string, string>, string> {
    match Greedy(filename)
    case None => Err(MismatchError(filename))
    case Some(w) =>
      var t, a, k := w.title, w.issue, w.page;
      Ok(map["SOURCE_TITLE" := filename[..t], "DATE" := filename[t + 1..t + 5],
             "SOURCE_NUMBER" := filename[t + 9..t + 9 + a], "PAGE_NUMBER" := filename[t + 14 + a..t + 14 + a + k]])
  }

  /** Removing a non-digit prefix with `replace` from prefix + digits leaves the digits. */
  lemma ReplacePrefix(prefix: string, digits: string)
    requires |prefix| > 0 && !IsDigit(prefix[0]) && AllDigits(digits)
    ensures Replace(prefix + digits, prefix, "") == digits
  {
    var s := prefix + digits;
    assert s[..|prefix|] == prefix && s[|prefix|..] == digits;
    assert prefix[0] !in digits;
    ReplaceAbsent(digits, prefix, "");
  }

  /** In a match, the SOURCE_NUMBER group is `iss` then digits and the PAGE group is `Page`
      then digits. */
  lemma GroupPrefixes(s: string, w: Split)
    requires TailMatches(s, w)
    ensures var t, a, k := w.title, w.issue, w.page;
      && s[t + 6..t + 9 + a] == "iss" + s[t + 9..t + 9 + a] && AllDigits(s[t + 9..t + 9 + a])
      && s[t + 10 + a..t + 14 + a + k] == "Page" + s[t + 14 + a..t + 14 + a + k]
      && AllDigits(s[t + 14 + a..t + 14 + a + k])
  {
    var t, a, k := w.title, w.issue, w.page;
    DigitsInSlice(s, t + 9, t + 9 + a);
    DigitsInSlice(s, t + 14 + a, t + 14 + a + k);
    assert s[t + 6..t + 9] == "iss";
    assert s[t + 6..t + 9 + a] == s[t + 6..t + 9] + s[t + 9..t + 9 + a];
    assert s[t + 10 + a..t + 14 + a] == "Page";
    assert s[t + 10 + a..t + 14 + a + k] == s[t + 10 + a..t + 14 + a] + s[t + 14 + a..t + 14 + a + k];
  }

  /** The two updates applied to the group dictionary: `iss` is removed from SOURCE_NUMBER in
      place, and PAGE is popped and stored, without `Page`, as PAGE_NUMBER. */
  method NormalizeGroups(groups: map<string, string>, ghost title: string, ghost date: string,
                         ghost issue: string, ghost page: string)
    returns (metadata: map<string, string>)
    requires groups == map["SOURCE_TITLE" := title, "DATE" := date, "SOURCE_NUMBER" := "iss" + issue,
                           "PAGE" := "Page" + page]
    requires AllDigits(issue) && AllDigits(page)
    ensures metadata == map["SOURCE_TITLE" := title, "DATE" := date, "SOURCE_NUMBER" := issue,
                            "PAGE_NUMBER" := page]
  {
    metadata := groups;
    ReplacePrefix("iss", issue);
    metadata := metadata["SOURCE_NUMBER" := Replace(metadata["SOURCE_NUMBER"], "iss", "")];
    var popped := metadata["PAGE"];
    metadata := metadata - {"PAGE"};
    ReplacePrefix("Page", page);
    metadata := metadata["PAGE_NUMBER" := Replace(popped, "Page", "")];
  }

  /** `extract_metadata_from_filename`: match, take the group dictionary and normalise it;
      or fail with the error naming the file. */
  method ExtractMetadata(filename: string) returns (r: Result<map<string, string>, string>)
    ensures r == FilenameMetadata(filename)
  {
    var m := Greedy(filename);
    if m.None? {
      return Err(MismatchError(filename));
    }
    var w := m.value;
    var t, a, k := w.title, w.issue, w.page;
    GroupPrefixes(filename, w);
    var groups := GroupDict(filename, w);
    var metadata := NormalizeGroups(groups, filename[..t], filename[t + 1..t + 5],
      filename[t + 9..t + 9 + a], filename[t + 14 + a..t + 14 + a + k]);
    MetadataOfMatch(filename, w);
    r := Ok(metadata);
  }

  // ---------------------------------------------------------------- what the parser promises

  /** A name of the form the archive uses: TITLE_YYYY_issN_PageM, one character, `jpg`
      (the character is `.` in `TITLE_YYYY_issN_PageM.jpg`). */
  function ArchiveName(title: string, year: string, issue: string, page: string, c: char): string {
    title + "_" + year + "_iss" + issue + "_Page" + page + [c] + "jpg"
  }

  /** Where each part of an archive name sits. */
  lemma ArchiveLayout(title: string, year: string, issue: string, page: string, c: char)
    requires |year| == 4
    ensures var s, T, N, M := ArchiveName(title, year, issue, page, c), |title|, |issue|, |page|;
      && |s| == T + N + M + 18
      && s[..T] == title && s[T] == '_' && s[T + 1..T + 5] == year && s[T + 5] == '_'
      && s[T + 6..T + 9] == "iss" && s[T + 9..T + 9 + N] == issue && s[T + 9 + N] == '_'
      && s[T + 10 + N..T + 14 + N] == "Page" && s[T + 14 + N..T + 14 + N + M] == page
      && s[T + 14 + N + M] == c && s[T + 15 + N + M..] == "jpg"
  {
  }

  /** In an archive name, no `_` after the title is followed by a digit. */
  lemma ArchiveUnderscores(title: string, year: string, issue: string, page: string, c: char)
    requires |year| == 4 && AllDigits(year) && AllDigits(issue) && AllDigits(page)
    ensures var s, T := ArchiveName(title, year, issue, page, c), |title|;
      forall p :: T < p < |s| - 1 ==> s[p] != '_' || !IsDigit(s[p + 1])
  {
    var s := ArchiveName(title, year, issue, page, c);
    var T, N, M := |title|, |issue|, |page|;
    ArchiveLayout(title, year, issue, page, c);
    forall p | T < p < |s| - 1
      ensures s[p] != '_' || !IsDigit(s[p + 1])
    {
      if p < T + 5 {
        assert s[p] == s[T + 1..T + 5][p - T - 1];
      } else if p == T + 5 {
        assert s[p + 1] == s[T + 6..T + 9][0];
      } else if p < T + 9 {
        assert s[p] == s[T + 6..T + 9][p - T - 6];
      } else if p < T + 9 + N {
        assert s[p] == s[T + 9..T + 9 + N][p - T - 9];
      } else if p == T + 9 + N {
        assert s[p + 1] == s[T + 10 + N..T + 14 + N][0];
      } else if p < T + 14 + N {
        assert s[p] == s[T + 10 + N..T + 14 + N][p - T - 10 - N];
      } else if p < T + 14 + N + M {
        assert s[p] == s[T + 14 + N..T + 14 + N + M][p - T - 14 - N];
      } else if p == T + 14 + N + M {
        assert s[p + 1] == s[T + 15 + N + M..][0];
      } else {
        assert s[p] == s[T + 15 + N + M..][p - T - 15 - N - M];
      }
    }
  }

  lemma MetadataOfMatch(s: string, w: Split)
    requires Greedy(s) == Some(w) && End(w) <= |s|
    ensures var t, a, k := w.title, w.issue, w.page;
      FilenameMetadata(s) == Ok(map["SOURCE_TITLE" := s[..t], "DATE" := s[t + 1..t + 5],
        "SOURCE_NUMBER" := s[t + 9..t + 9 + a], "PAGE_NUMBER" := s[t + 14 + a..t + 14 + a + k]])
  {
  }

  /** The `_`, year and `_iss` of an archive name sit right after its title. */
  lemma ArchiveHead(title: string, year: string, issue: string, page: string, c: char)
    requires |year| == 4 && AllDigits(year)
    ensures HeadAt(ArchiveName(title, year, issue, page, c), |title|)
  {
    var s, T := ArchiveName(title, year, issue, page, c), |title|;
    ArchiveLayout(title, year, issue, page, c);
    DigitsInSlice(s, T + 1, T + 5);
    assert s[T + 6..T + 9][0] == s[T + 6] && s[T + 6..T + 9][1] == s[T + 7] && s[T + 6..T + 9][2] == s[T + 8];
  }

  /** The issue digits, `_Page`, the page digits, the character and `jpg` of an archive name
      follow its `_iss` as the pattern asks. */
  lemma ArchiveTail(title: string, year: string, issue: string, page: string, c: char)
    requires |year| == 4
    requires |issue| >= 1 && AllDigits(issue) && |page| >= 1 && AllDigits(page)
    requires c != '\n'
    ensures var s, T, N, M := ArchiveName(title, year, issue, page, c), |title|, |issue|, |page|;
      DigitsIn(s, T + 9, T + 9 + N) && PageAt(s, T, N) && DigitsIn(s, T + 14 + N, T + 14 + N + M)
      && JpgAt(s, T + 14 + N + M)
  {
    var s, T, N, M := ArchiveName(title, year, issue, page, c), |title|, |issue|, |page|;
    ArchiveLayout(title, year, issue, page, c);
    DigitsInSlice(s, T + 9, T + 9 + N);
    DigitsInSlice(s, T + 14 + N, T + 14 + N + M);
    var p := T + 10 + N;
    assert s[p..p + 4][0] == s[p] && s[p..p + 4][1] == s[p + 1] && s[p..p + 4][2] == s[p + 2] && s[p..p + 4][3] == s[p + 3];
    var q := T + 15 + N + M;
    assert s[q..][0] == s[q] && s[q..][1] == s[q + 1] && s[q..][2] == s[q + 2];
  }

  /** An archive name matches with its own title, its own `iss` digits and its own `Page` digits. */
  lemma ArchiveMatches(title: string, year: string, issue: string, page: string, c: char)
    requires |title| >= 1 && '\n' !in title
    requires |year| == 4 && AllDigits(year)
    requires |issue| >= 1 && AllDigits(issue) && |page| >= 1 && AllDigits(page)
    requires c != '\n'
    ensures IsMatch(ArchiveName(title, year, issue, page, c), Split(|title|, |issue|, |page|))
  {
    var s, T := ArchiveName(title, year, issue, page, c), |title|;
    ArchiveHead(title, year, issue, page, c);
    ArchiveTail(title, year, issue, page, c);
    assert forall i :: 0 <= i < T ==> s[i] == title[i];
  }

  /** In an archive name, the `_` and digit that start the pattern's tail cannot come after the
      title. */
  lemma ArchiveHeadOnlyAtTitle(title: string, year: string, issue: string, page: string, c: char, u: nat)
    requires '_' !in title
    requires |year| == 4 && AllDigits(year) && AllDigits(issue) && AllDigits(page)
    requires HeadAt(ArchiveName(title, year, issue, page, c), u) && u >= |title|
    ensures u == |title|
  {
    var s, T := ArchiveName(title, year, issue, page, c), |title|;
    ArchiveUnderscores(title, year, issue, page, c);
    assert s[u] == '_' && IsDigit(s[u + 1]);
    assert s[T] == '_' by {
      ArchiveLayout(title, year, issue, page, c);
    }
  }

  /** No match of an archive name takes a longer title than its own, and one with its own title
      takes its own `iss` digits and at most its own `Page` digits. */
  lemma ArchiveMatchesAtMost(title: string, year: string, issue: string, page: string, c: char, v: Split)
    requires '_' !in title
    requires |year| == 4 && AllDigits(year)
    requires |issue| >= 1 && AllDigits(issue) && |page| >= 1 && AllDigits(page) && c != '\n'
    requires IsMatch(ArchiveName(title, year, issue, page, c), v) && v.title >= |title|
    ensures v.title == |title| && v.issue == |issue| && v.page <= |page|
  {
    var s, T, N := ArchiveName(title, year, issue, page, c), |title|, |issue|;
    ArchiveHeadOnlyAtTitle(title, year, issue, page, c, v.title);
    ArchiveTail(title, year, issue, page, c);
    DigitRunIs(s, T + 9, N);
    DigitRunIs(s, T + 9, v.issue);
  }

  /** On an archive name the matcher stops at the title, the `iss` digits and the `Page` digits. */
  lemma GreedyOnArchiveName(title: string, year: string, issue: string, page: string, c: char)
    requires |title| >= 1 && '_' !in title && '\n' !in title
    requires |year| == 4 && AllDigits(year)
    requires |issue| >= 1 && AllDigits(issue) && |page| >= 1 && AllDigits(page)
    requires c != '\n'
    ensures Greedy(ArchiveName(title, year, issue, page, c)) == Some(Split(|title|, |issue|, |page|))
  {
    var s := ArchiveName(title, year, issue, page, c);
    GreedyIsFirstMatch(s);
    ArchiveMatches(title, year, issue, page, c);
    ArchiveMatchesAtMost(title, year, issue, page, c, Greedy(s).value);
  }

  /** Such a name yields exactly its four parts, with no PAGE key left, whenever the title has
      no `_` and no newline and the character before `jpg` is not a newline (an unescaped `.`). */
  lemma ParsesArchiveName(title: string, year: string, issue: string, page: string, c: char)
    requires |title| >= 1 && '_' !in title && '\n' !in title
    requires |year| == 4 && AllDigits(year)
    requires |issue| >= 1 && AllDigits(issue) && |page| >= 1 && AllDigits(page)
    requires c != '\n'
    ensures FilenameMetadata(ArchiveName(title, year, issue, page, c))
         == Ok(map["SOURCE_TITLE" := title, "DATE" := year, "SOURCE_NUMBER" := issue, "PAGE_NUMBER" := page])
  {
    var s := ArchiveName(title, year, issue, page, c);
    GreedyOnArchiveName(title, year, issue, page, c);
    ArchiveLayout(title, year, issue, page, c);
    MetadataOfMatch(s, Split(|title|, |issue|, |page|));
  }

  /** Any match needs an `_`. */
  lemma MatchHasUnderscore(s: string)
    ensures forall w :: IsMatch(s, w) ==> '_' in s
  {
  }

  /** A name without any `_` cannot match, and the error names the file. */
  lemma RejectsNameWithoutUnderscore(s: string)
    requires '_' !in s
    ensures FilenameMetadata(s) == Err(MismatchError(s))
  {
    GreedyIsFirstMatch(s);
    MatchHasUnderscore(s);
  }

  /** `re.match` is anchored at the start only: text after a match never makes the name fail. */
  lemma TrailingTextIgnored(s: string, w: Split, rest: string)
    requires IsMatch(s, w)
    ensures IsMatch(s + rest, w)
    ensures FilenameMetadata(s + rest).Ok?
  {
    var s' := s + rest;
    assert forall i, j :: 0 <= i <= j <= End(w) ==> s'[i..j] == s[i..j];
    assert forall i :: 0 <= i < |s| ==> s'[i] == s[i];
    assert IsMatch(s', w);
    GreedyIsFirstMatch(s');
  }

  /** A name without any `_` is refused. */
  lemma ExampleRandomName()
    ensures FilenameMetadata("randomfile.jpg") == Err(MismatchError("randomfile.jpg"))
  {
    RejectsNameWithoutUnderscore("randomfile.jpg");
  }
}

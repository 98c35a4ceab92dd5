/**
 * The file naming inside `DatasetBuilder.build_dataset` of
 * `dataset_builder.py`: the site name is the website with "http://",
 * "https://" and "www." removed (in that order), cut at its first '.', and it
 * names a screenshot under `dataset/screenshots` and an HTML capture under
 * `dataset/html`; each website then gets a four-field CSV row.
 */
module DatasetNaming {

  /** `pattern` occurs in `s` starting at index `i`. */
  predicate OccursAt(pattern: string, s: string, i: nat)
  {
    i + |pattern| <= |s| && s[i..i + |pattern|] == pattern
  }

  /** `s.replace(pattern, "")`: occurrences are found left to right, removed, and the scan resumes after each one. */
  function RemoveAll(s: string, pattern: string): (r: string)
    requires pattern != []
    ensures |r| <= |s|
    decreases |s|
  {
    if |s| < |pattern| then s
    else if s[..|pattern|] == pattern then RemoveAll(s[|pattern|..], pattern)
    else [s[0]] + RemoveAll(s[1..], pattern)
  }

  /** `s.split(".")[0]`: the text before the first '.', or all of `s` when it has none. */
  function BeforeFirstDot(s: string): (r: string)
    ensures |r| <= |s| && r == s[..|r|]
    ensures '.' !in r
    ensures |r| < |s| ==> s[|r|] == '.'
  {
    if s == [] || s[0] == '.' then []
    else [s[0]] + BeforeFirstDot(s[1..])
  }

  /** The `name` of a website. */
  function SiteName(website: string): (name: string)
    ensures '.' !in name && |name| <= |website|
  {
    BeforeFirstDot(RemoveAll(RemoveAll(RemoveAll(website, "http://"), "https://"), "www."))
  }

  /** `str.rstrip("/")`. */
  function StripTrailingSlashes(s: string): (r: string)
  {
    if s != [] && s[|s| - 1] == '/' then StripTrailingSlashes(s[..|s| - 1]) else s
  }

  /** The index just after the last '/', or 0 when there is none. */
  function AfterLastSlash(s: string): (i: nat)
    ensures i <= |s|
  {
    if s == [] then 0
    else if s[|s| - 1] == '/' then |s|
    else AfterLastSlash(s[..|s| - 1])
  }

  /** POSIX `os.path.dirname`. */
  function Dirname(p: string): string
  {
    var head := p[..AfterLastSlash(p)];
    if head != [] && exists j :: 0 <= j < |head| && head[j] != '/' then StripTrailingSlashes(head) else head
  }

  /** POSIX `os.path.join` of two components: an absolute second component replaces the first. */
  function Join(a: string, b: string): string
  {
    if b != [] && b[0] == '/' then b
    else if a == [] || a[|a| - 1] == '/' then a + b
    else a + "/" + b
  }

  /** `base_url`: `os.path.dirname("dataset/")`. */
  function BaseUrl(): string
  {
    Dirname("dataset/")
  }

  function ScreenshotPath(website: string): string
  {
    Join(Join(BaseUrl(), "screenshots"), SiteName(website) + ".png")
  }

  function HtmlPath(website: string): string
  {
    Join(Join(BaseUrl(), "html"), SiteName(website) + ".html")
  }

  /** The row appended to `dataset/actions.csv`. */
  function ActionRow(website: string): seq<string>
  {
    [website, ScreenshotPath(website), HtmlPath(website), " "]
  }

  /** `os.path.dirname("dataset/")` is "dataset". */
  lemma BaseUrlIsDataset()
    ensures BaseUrl() == "dataset"
  {
    var p := "dataset/";
    assert AfterLastSlash(p) == 8;
    assert p[..8] == p;
    assert p[7] == '/' && p[..7] == "dataset" && p[0] != '/';
    assert StripTrailingSlashes("dataset") == "dataset";
  }

  /**
   * The screenshot and HTML paths are `dataset/screenshots/<name>.png` and
   * `dataset/html/<name>.html`, unless the name starts with '/', in which
   * case `os.path.join` keeps only `<name>.png` and `<name>.html`. The CSV row
   * has four fields: the website, the two paths and a single space.
   */
  lemma PathsOfWebsite(website: string)
    ensures var name := SiteName(website);
            var absolute := name != [] && name[0] == '/';
            var screenshot := if absolute then name + ".png" else "dataset/screenshots/" + name + ".png";
            var html := if absolute then name + ".html" else "dataset/html/" + name + ".html";
            && ScreenshotPath(website) == screenshot
            && HtmlPath(website) == html
            && ActionRow(website) == [website, screenshot, html, " "]
  {
    UnderDirectory("screenshots", "dataset/screenshots/", SiteName(website), ".png");
    UnderDirectory("html", "dataset/html/", SiteName(website), ".html");
  }

  /** A file `name + ext` joined under `dataset/<sub>`, where `prefix` is `dataset/<sub>/`. */
  lemma UnderDirectory(sub: string, prefix: string, name: string, ext: string)
    requires sub == "screenshots" || sub == "html"
    requires prefix == "dataset/" + sub + "/"
    requires ext == ".png" || ext == ".html"
    ensures Join(Join(BaseUrl(), sub), name + ext)
            == if name != [] && name[0] == '/' then name + ext else prefix + name + ext
  {
    BaseUrlIsDataset();
    var dir := "dataset" + "/" + sub;
    assert Join(BaseUrl(), sub) == dir by {
      assert sub[0] != '/';
    }
    assert dir[|dir| - 1] != '/';
    assert (name + ext)[0] == if name == [] then ext[0] else name[0];
    assert dir + "/" + (name + ext) == prefix + name + ext;
  }

  /** With no occurrence of the pattern, `replace` returns the string unchanged. */
  lemma {:induction false} RemoveAllWithoutOccurrence(s: string, pattern: string)
    requires pattern != []
    requires forall i: nat :: !OccursAt(pattern, s, i)
    ensures RemoveAll(s, pattern) == s
    decreases |s|
  {
    if |s| >= |pattern| {
      assert !OccursAt(pattern, s, 0);
      assert s[0..|pattern|] == s[..|pattern|];
      forall i: nat ensures !OccursAt(pattern, s[1..], i) {
        assert !OccursAt(pattern, s, i + 1);
        if i + |pattern| <= |s[1..]| {
          assert s[1..][i..i + |pattern|] == s[i + 1..i + 1 + |pattern|];
        }
      }
      RemoveAllWithoutOccurrence(s[1..], pattern);
    }
  }

  /** A leading occurrence is removed and the scan resumes after it. */
  lemma RemoveAllLeading(pattern: string, s: string)
    requires pattern != []
    ensures RemoveAll(pattern + s, pattern) == RemoveAll(s, pattern)
  {
    assert (pattern + s)[..|pattern|] == pattern;
    assert (pattern + s)[|pattern|..] == s;
  }

  /**
   * Removal is a single pass, so it can leave an occurrence behind: removing
   * "http://" from "hthttp://tp://" leaves "http://".
   *
   * The pattern is a parameter fixed to "http://" by the precondition, rather
   * than the literal itself: the verifier then steps through the scan one
   * position at a time with `RemoveAllSkipsFirst` instead of unfolding
   * `RemoveAll` on literal strings all at once.
   */
  lemma RemovalIsSinglePass(pattern: string)
    requires pattern == "http://"
    ensures RemoveAll("ht" + pattern + "tp://", pattern) == pattern
  {
    var rest := "tp://";
    var s2 := pattern + rest;
    var s1 := ['t'] + s2;
    var s0 := ['h'] + s1;
    assert RemoveAll(s2, pattern) == rest by {
      RemoveAllLeading(pattern, rest);
    }
    assert RemoveAll(s1, pattern) == ['t'] + rest by {
      assert s1[0] != pattern[0];
      RemoveAllSkipsFirst(s1, pattern);
      assert s1[1..] == s2;
    }
    assert RemoveAll(s0, pattern) == ['h'] + (['t'] + rest) by {
      assert s0[2] != pattern[2];
      RemoveAllSkipsFirst(s0, pattern);
      assert s0[1..] == s1;
    }
    assert ['h'] + (['t'] + rest) == pattern;
    assert s0 == "ht" + pattern + rest;
  }

  /** A position where the pattern does not start keeps its character. */
  lemma RemoveAllSkipsFirst(s: string, pattern: string)
    requires pattern != [] && |pattern| <= |s|
    requires exists k :: 0 <= k < |pattern| && s[k] != pattern[k]
    ensures RemoveAll(s, pattern) == [s[0]] + RemoveAll(s[1..], pattern)
  {
    var k :| 0 <= k < |pattern| && s[k] != pattern[k];
    assert s[..|pattern|][k] == s[k];
  }

  /**
   * The scheme and a leading "www." do not change the name: a host without
   * ':' and without "www." gets the same name bare, after "http://", after
   * "https://" and after "https://www.".
   */
  lemma NameIgnoresSchemeAndWww(host: string)
    requires ':' !in host
    requires forall i: nat :: !OccursAt("www.", host, i)
    ensures SiteName(host) == BeforeFirstDot(host)
    ensures SiteName("http://" + host) == BeforeFirstDot(host)
    ensures SiteName("https://" + host) == BeforeFirstDot(host)
    ensures SiteName("https://www." + host) == BeforeFirstDot(host)
  {
    NoSchemeWithoutColon(host);
    RemoveAllWithoutOccurrence(host, "www.");
    RemoveAllLeading("http://", host);
    SecureName(host);
    SecureWwwName(host);
  }

  lemma SecureName(host: string)
    requires ':' !in host
    requires RemoveAll(host, "https://") == host && RemoveAll(host, "www.") == host
    ensures SiteName("https://" + host) == BeforeFirstDot(host)
  {
    SecurePrefixHasNoHttp("https://", host);
    RemoveAllLeading("https://", host);
  }

  lemma SecureWwwName(host: string)
    requires ':' !in host
    requires RemoveAll(host, "www.") == host
    ensures SiteName("https://www." + host) == BeforeFirstDot(host)
  {
    SecurePrefixHasNoHttp("https://www.", host);
    var rest := "www." + host;
    assert "https://www." + host == "https://" + rest;
    RemoveAllLeading("https://", rest);
    assert ':' !in rest;
    NoSchemeWithoutColon(rest);
    RemoveAllLeading("www.", host);
  }

  /** Two websites whose hosts share the label before the first dot get the same name. */
  lemma FirstLabelCollides(first: string, tld1: string, tld2: string)
    requires '.' !in first
    requires ':' !in first + "." + tld1 && ':' !in first + "." + tld2
    requires forall i: nat :: !OccursAt("www.", first + "." + tld1, i)
    requires forall i: nat :: !OccursAt("www.", first + "." + tld2, i)
    ensures SiteName("https://www." + first + "." + tld1) == SiteName("http://" + first + "." + tld2) == first
  {
    assert "https://www." + first + "." + tld1 == "https://www." + (first + "." + tld1);
    assert "http://" + first + "." + tld2 == "http://" + (first + "." + tld2);
    NameIgnoresSchemeAndWww(first + "." + tld1);
    NameIgnoresSchemeAndWww(first + "." + tld2);
    FirstLabel(first, tld1);
    FirstLabel(first, tld2);
  }

  lemma {:induction false} FirstLabel(first: string, rest: string)
    requires '.' !in first
    ensures BeforeFirstDot(first + "." + rest) == first
    decreases |first|
  {
    if first != [] {
      assert (first + "." + rest)[1..] == first[1..] + "." + rest;
      FirstLabel(first[1..], rest);
    }
  }

  /** Inside `prefix + host` the only ':' is at index 5, which "http://" cannot match. */
  lemma SecurePrefixHasNoHttp(prefix: string, host: string)
    requires prefix == "https://" || prefix == "https://www."
    requires ':' !in host
    ensures RemoveAll(prefix + host, "http://") == prefix + host
  {
    var s := prefix + host;
    assert s[..|prefix|] == prefix;
    forall i: nat ensures !OccursAt("http://", s, i) {
      if i + 7 <= |s| {
        if i == 1 {
          assert s[1] == prefix[1] == 't';
          assert s[i..i + 7][0] == s[1];
        } else if i + 4 < |prefix| {
          assert s[i + 4] == prefix[i + 4];
          assert prefix[i + 4] != ':';
          assert s[i..i + 7][4] == s[i + 4];
        } else {
          assert s[i + 4] == host[i + 4 - |prefix|];
          assert host[i + 4 - |prefix|] != ':';
          assert s[i..i + 7][4] == s[i + 4];
        }
      }
    }
    RemoveAllWithoutOccurrence(s, "http://");
  }

  /** Neither scheme occurs in a string without ':'. */
  lemma NoSchemeWithoutColon(s: string)
    requires ':' !in s
    ensures RemoveAll(s, "http://") == s
    ensures RemoveAll(s, "https://") == s
  {
    forall i: nat ensures !OccursAt("http://", s, i) && !OccursAt("https://", s, i) {
      if i + 7 <= |s| {
        assert s[i..i + 7][4] == s[i + 4];
      }
      if i + 8 <= |s| {
        assert s[i..i + 8][5] == s[i + 5];
      }
    }
    RemoveAllWithoutOccurrence(s, "http://");
    RemoveAllWithoutOccurrence(s, "https://");
  }
}

/** Asset paths of the goat profile page: the normalisation of a goat's
    image path for the two hosting set-ups (a custom domain serving the site
    from `/`, and GitHub Pages serving it from `/website/`), and the list of
    places where the goat data file is looked for. */
module GoatPaths {
  import opened Js

  /** A path the browser will not resolve against the current page. */
  predicate IsAbsolute(p: string) {
    StartsWith(p, "http") || StartsWith(p, "//") || StartsWith(p, "/")
  }

  /** The prefix that turns a site-relative path into an absolute one. */
  function SiteRoot(gitHubPages: bool): string {
    if gitHubPages then "/website/" else "/"
  }

  /** The three rewriting branches of the normalisation, before the final
      validation step. */
  function Rewrite(gitHubPages: bool, image: string): string {
    if StartsWith(image, "../") then
      SiteRoot(gitHubPages) + image[3..]
    else if !StartsWith(image, "http") && !StartsWith(image, "//") && !StartsWith(image, "/") then
      SiteRoot(gitHubPages) + image
    else if StartsWith(image, "/") && gitHubPages && !StartsWith(image, "/website/") then
      "/website" + image
    else
      image
  }

  lemma SiteRootPrefix(gitHubPages: bool, rest: string)
    ensures StartsWith(SiteRoot(gitHubPages) + rest, "/")
  {
    assert (SiteRoot(gitHubPages) + rest)[..1] == "/";
  }

  /** Each of the three branches already yields an absolute path. */
  lemma RewriteIsAbsolute(gitHubPages: bool, image: string)
    ensures IsAbsolute(Rewrite(gitHubPages, image))
  {
    if StartsWith(image, "../") {
      SiteRootPrefix(gitHubPages, image[3..]);
    } else if !StartsWith(image, "http") && !StartsWith(image, "//") && !StartsWith(image, "/") {
      SiteRootPrefix(gitHubPages, image);
    } else if StartsWith(image, "/") && gitHubPages && !StartsWith(image, "/website/") {
      assert ("/website" + image)[..1] == "/";
    }
  }

  /** The image path a goat card shows, given the page's host name: the
      three rewriting branches followed by the validation step that prefixes
      any path still not absolute. */
  function NormalizeImagePath(hostname: string, image: string): (r: string)
    ensures IsAbsolute(r)
    ensures r == Rewrite(Contains(hostname, "github.io"), image)
  {
    var gitHubPages := Contains(hostname, "github.io");
    var rewritten := Rewrite(gitHubPages, image);
    RewriteIsAbsolute(gitHubPages, image);
    if !IsAbsolute(rewritten) then
      SiteRoot(gitHubPages) + rewritten
    else
      rewritten
  }

  /** A leading `../` is dropped once and replaced by the site root. */
  lemma ParentPrefixReplaced(hostname: string, rest: string)
    ensures NormalizeImagePath(hostname, "../" + rest)
            == (if Contains(hostname, "github.io") then "/website/" else "/") + rest
  {
    var image := "../" + rest;
    assert image[..3] == "../";
    assert image[3..] == rest;
  }

  /** Any other relative path gets the site root in front. */
  lemma RelativePrefixed(hostname: string, image: string)
    requires !StartsWith(image, "../") && !StartsWith(image, "http") && !StartsWith(image, "/")
    ensures NormalizeImagePath(hostname, image)
            == (if Contains(hostname, "github.io") then "/website/" else "/") + image
  {
    StartsWithTrans(image, "//", "/");
  }

  /** On GitHub Pages a root path outside `/website/` moves under it. */
  lemma GitHubRootMoved(hostname: string, image: string)
    requires Contains(hostname, "github.io")
    requires StartsWith(image, "/") && !StartsWith(image, "/website/")
    ensures NormalizeImagePath(hostname, image) == "/website" + image
  {
    StartsWithExclusive(image, "../", "/");
  }

  /** Paths the rewriting leaves alone: `http...` paths on every host, root
      paths on a custom domain, and `/website/...` paths on GitHub Pages. */
  lemma AbsoluteKept(hostname: string, image: string)
    requires StartsWith(image, "http")
             || (StartsWith(image, "/") && !Contains(hostname, "github.io"))
             || StartsWith(image, "/website/")
    ensures NormalizeImagePath(hostname, image) == image
  {
    StartsWithExclusive(image, "../", "http");
    StartsWithExclusive(image, "../", "/");
    StartsWithExclusive(image, "../", "/website/");
    StartsWithTrans(image, "/website/", "/");
  }

  /** Normalising a normalised path changes nothing, for a fixed host. */
  lemma NormalizeIdempotent(hostname: string, image: string)
    ensures NormalizeImagePath(hostname, NormalizeImagePath(hostname, image))
            == NormalizeImagePath(hostname, image)
  {
    var gitHubPages := Contains(hostname, "github.io");
    var r := NormalizeImagePath(hostname, image);
    StartsWithTrans(image, "//", "/");
    if StartsWith(image, "../") || (!StartsWith(image, "http") && !StartsWith(image, "/")) {
      var rest := if StartsWith(image, "../") then image[3..] else image;
      assert r == SiteRoot(gitHubPages) + rest;
      if gitHubPages {
        assert r[..9] == "/website/";
      } else {
        assert r[..1] == "/";
      }
      AbsoluteKept(hostname, r);
    } else if StartsWith(image, "/") && gitHubPages && !StartsWith(image, "/website/") {
      assert r == "/website" + image;
      assert r[..9] == "/website/";
      AbsoluteKept(hostname, r);
    } else {
      AbsoluteKept(hostname, image);
    }
  }

  /** On GitHub Pages the root-path branch also catches protocol-relative
      URLs: `//cdn.example.com/goat.jpg` becomes a path under `/website/`,
      although the second branch and the validation step both treat `//` as
      already absolute. */
  lemma ProtocolRelativeMovedOnGitHub(hostname: string, rest: string)
    requires Contains(hostname, "github.io")
    ensures NormalizeImagePath(hostname, "//" + rest) == "/website//" + rest
  {
    ProtocolRelativeRewrite(rest);
  }

  /** The host and the image of the finding: a GitHub Pages host and a
      protocol-relative image URL. */
  const ExampleHost: string := "farm.github.io"
  const ExampleImage: string := "//cdn.example.com/goat.jpg"

  /** `farm.github.io` is a GitHub Pages host name: it contains `github.io`. */
  lemma GitHubHostExample()
    ensures Contains(ExampleHost, "github.io")
  {
    assert ExampleHost[5..5 + |"github.io"|] == "github.io";
    ContainsAt(ExampleHost, "github.io", 5);
  }

  /** The concrete input of the finding, which meets the precondition of
      ProtocolRelativeMovedOnGitHub: the protocol-relative image is moved
      under `/website`, while the corrected normalisation leaves it alone. */
  lemma ProtocolRelativeCounterexample()
    ensures NormalizeImagePath(ExampleHost, ExampleImage) == "/website" + ExampleImage
    ensures NormalizeImagePathCorrected(ExampleHost, ExampleImage) == ExampleImage
  {
    GitHubHostExample();
    var rest := ExampleImage[2..];
    assert ExampleImage == "//" + rest;
    ProtocolRelativeMovedOnGitHub(ExampleHost, rest);
    assert "/website" + ExampleImage == "/website//" + rest;
  }

  /** On GitHub Pages every protocol-relative URL takes the root-path branch. */
  lemma ProtocolRelativeRewrite(rest: string)
    ensures Rewrite(true, "//" + rest) == "/website//" + rest
  {
    var image := "//" + rest;
    StartsWithExclusive(image, "../", "/");
    assert image[..1] == "/";
    assert image[..2] == "//";
    assert !StartsWith(image, "/website/") by {
      if |"/website/"| <= |image| { assert image[..|"/website/"|][1] == image[1]; }
    }
    assert "/website" + image == "/website//" + rest;
  }

  /** The rewriting branches with protocol-relative URLs left alone on every
      host, as the second branch and the validation step intend. */
  function RewriteKeepingProtocolRelative(gitHubPages: bool, image: string): string {
    if StartsWith(image, "../") then
      SiteRoot(gitHubPages) + image[3..]
    else if !StartsWith(image, "http") && !StartsWith(image, "//") && !StartsWith(image, "/") then
      SiteRoot(gitHubPages) + image
    else if StartsWith(image, "/") && !StartsWith(image, "//") && gitHubPages && !StartsWith(image, "/website/") then
      "/website" + image
    else
      image
  }

  /** The shape of every corrected rewrite. */
  lemma RewriteKeepingProtocolRelativeShape(gitHubPages: bool, image: string)
    ensures var r := RewriteKeepingProtocolRelative(gitHubPages, image);
      && (StartsWith(image, "http") || StartsWith(image, "//") ==> r == image)
      && (StartsWith(r, "http") || StartsWith(r, "//") || StartsWith(r, "/website/")
          || (StartsWith(r, "/") && !gitHubPages))
  {
    StartsWithExclusive(image, "../", "http");
    StartsWithExclusive(image, "../", "/");
    StartsWithTrans(image, "//", "/");
    if StartsWith(image, "../") || (!StartsWith(image, "http") && !StartsWith(image, "/")) {
      var rest := if StartsWith(image, "../") then image[3..] else image;
      if gitHubPages {
        assert (SiteRoot(gitHubPages) + rest)[..9] == "/website/";
      } else {
        assert (SiteRoot(gitHubPages) + rest)[..1] == "/";
      }
    } else if StartsWith(image, "/") && !StartsWith(image, "//") && gitHubPages && !StartsWith(image, "/website/") {
      assert ("/website" + image)[..9] == "/website/";
    }
  }

  /** The corrected normalisation: every result is absolute, `http...` and
      `//...` paths come back unchanged on every host, and the result is of a
      form the rewriting leaves alone. */
  function NormalizeImagePathCorrected(hostname: string, image: string): (r: string)
    ensures IsAbsolute(r)
    ensures StartsWith(image, "http") || StartsWith(image, "//") ==> r == image
    ensures StartsWith(r, "http") || StartsWith(r, "//") || StartsWith(r, "/website/")
            || (StartsWith(r, "/") && !Contains(hostname, "github.io"))
  {
    var gitHubPages := Contains(hostname, "github.io");
    var r := RewriteKeepingProtocolRelative(gitHubPages, image);
    RewriteKeepingProtocolRelativeShape(gitHubPages, image);
    StartsWithTrans(r, "/website/", "/");
    if !IsAbsolute(r) then SiteRoot(gitHubPages) + r else r
  }

  /** Normalising a path twice with the corrected rule is normalising it once. */
  lemma CorrectedIdempotent(hostname: string, image: string)
    ensures NormalizeImagePathCorrected(hostname, NormalizeImagePathCorrected(hostname, image))
            == NormalizeImagePathCorrected(hostname, image)
  {
    var r := NormalizeImagePathCorrected(hostname, image);
    StartsWithExclusive(r, "../", "http");
    StartsWithExclusive(r, "../", "/");
    StartsWithTrans(r, "/website/", "/");
    StartsWithTrans(r, "//", "/");
  }

  /** The candidate locations of `goats.json`, in the order they are tried,
      for the page's path name. */
  function CandidatePaths(pathname: string): (r: seq<string>)
    ensures |r| == 3
    ensures r[0] == (if Contains(pathname, "/goats/") || EndsWith(pathname, "/goats") then "goats.json" else "goats/goats.json")
    ensures r[1] == "../goats/goats.json"
    ensures r[2] == (if Contains(pathname, "/website/") then "/website/goats/goats.json" else "/goats/goats.json")
  {
    var local := if Contains(pathname, "/goats/") || EndsWith(pathname, "/goats")
      then ["goats.json", "../goats/goats.json"]
      else ["goats/goats.json", "../goats/goats.json"];
    var withPrefix := if Contains(pathname, "/website/") then local + ["/website/goats/goats.json"] else local;
    if !Contains(pathname, "/website/") then withPrefix + ["/goats/goats.json"] else withPrefix
  }

  /** No location is tried twice, and exactly one of the two site-root
      locations is tried, after the two page-relative ones. */
  lemma CandidatePathsDistinct(pathname: string)
    ensures NoDuplicates(CandidatePaths(pathname))
    ensures ("/website/goats/goats.json" in CandidatePaths(pathname)) != ("/goats/goats.json" in CandidatePaths(pathname))
  {
    var r := CandidatePaths(pathname);
    assert r[1][0] == '.' && r[2][0] == '/';
  }
}

/** JavaScript value conventions shared by every module of the model:
    nullable values, truthiness of strings, and the few `String.prototype`
    operations the site's scripts use. Strings are `seq<char>`, sequences of
    Unicode scalar values; JavaScript strings are sequences of UTF-16 code
    units, and the two agree exactly on text in the Basic Multilingual Plane
    (`Bmp`, `Utf16Length`). */
module Js {

  /** A value that may be absent (`undefined`); JSON `null` is not
      distinguished from it. */
  datatype Option<+T> = None | Some(value: T)

  /** The outcome of an operation that may throw: a value or an error. */
  datatype Result<+T, +E> = Success(value: T) | Failure(error: E)

  /** A string value is truthy when it is present and not the empty string. */
  predicate Truthy(o: Option<string>) {
    o.Some? && o.value != ""
  }

  /** `a || b` on two optional strings. */
  function OrElse(a: Option<string>, b: Option<string>): (r: Option<string>)
    ensures Truthy(a) ==> r == a
    ensures !Truthy(a) ==> r == b
  {
    if Truthy(a) then a else b
  }

  /** `a || fallback` when the fallback is a literal string. */
  function OrDefault(a: Option<string>, fallback: string): (r: string)
    ensures Truthy(a) ==> r == a.value
    ensures !Truthy(a) ==> r == fallback
  {
    if Truthy(a) then a.value else fallback
  }

  /** `${x}` on a possibly absent value: an absent value is spelled
      `undefined` (a JSON `null` would read `null`, see the README). */
  function Interpolate(o: Option<string>): string {
    match o
    case Some(s) => s
    case None => "undefined"
  }

  predicate StartsWith(s: string, prefix: string) {
    |prefix| <= |s| && s[..|prefix|] == prefix
  }

  predicate EndsWith(s: string, suffix: string) {
    |suffix| <= |s| && s[|s| - |suffix|..] == suffix
  }

  /** `s.includes(t)`: `t` occurs at some position of `s`. */
  predicate Contains(s: string, t: string)
    decreases |s|
  {
    StartsWith(s, t) || (|s| > 0 && Contains(s[1..], t))
  }

  /** An occurrence at position `i` makes `s.includes(t)` true. */
  lemma {:induction false} ContainsAt(s: string, t: string, i: nat)
    requires i + |t| <= |s| && s[i..i + |t|] == t
    ensures Contains(s, t)
    decreases i
  {
    if i > 0 {
      assert s[1..][i - 1..i - 1 + |t|] == s[i..i + |t|];
      ContainsAt(s[1..], t, i - 1);
    }
  }

  /** `s.includes(t)` only when `t` occurs at some position of `s`. */
  lemma {:induction false} ContainsWitness(s: string, t: string) returns (i: nat)
    requires Contains(s, t)
    ensures i + |t| <= |s| && s[i..i + |t|] == t
    decreases |s|
  {
    if StartsWith(s, t) {
      i := 0;
    } else {
      var j := ContainsWitness(s[1..], t);
      assert s[1..][j..j + |t|] == s[j + 1..j + 1 + |t|];
      i := j + 1;
    }
  }

  /** When no character of `s` is the first character of `t`, `s` does not include `t`. */
  lemma {:induction false} NotContainsWhenCharAbsent(s: string, t: string)
    requires |t| > 0
    requires forall k :: 0 <= k < |s| ==> s[k] != t[0]
    ensures !Contains(s, t)
    decreases |s|
  {
    if |s| > 0 {
      assert !StartsWith(s, t) by {
        if |t| <= |s| { assert s[..|t|][0] == s[0]; }
      }
      NotContainsWhenCharAbsent(s[1..], t);
    }
  }

  /** A prefix of a prefix is a prefix. */
  lemma StartsWithTrans(s: string, p: string, q: string)
    ensures StartsWith(s, p) && StartsWith(p, q) ==> StartsWith(s, q)
  {
    if StartsWith(s, p) && StartsWith(p, q) {
      assert s[..|q|] == s[..|p|][..|q|];
    }
  }

  /** Two prefixes with different first characters exclude each other. */
  lemma StartsWithExclusive(s: string, p: string, q: string)
    requires |p| > 0 && |q| > 0 && p[0] != q[0]
    ensures !(StartsWith(s, p) && StartsWith(s, q))
  {
    if |p| <= |s| && |q| <= |s| {
      assert s[..|p|][0] == s[0] == s[..|q|][0];
    }
  }

  /** `s.substring(0, n)` for `n >= 0`: the end index is clamped to the length. */
  function Prefix(s: string, n: nat): (r: string)
    ensures |r| == if |s| < n then |s| else n
    ensures StartsWith(s, r)
  {
    if |s| <= n then s else s[..n]
  }

  /** `s.substring(0, n) + (s.length > n ? '...' : '')`: the description
      shortening used for product and video text. */
  function Truncate(s: string, n: nat): (r: string)
    ensures |s| <= n ==> r == s
    ensures |s| > n ==> |r| == n + 3 && r[..n] == s[..n] && EndsWith(r, "...")
  {
    Prefix(s, n) + (if |s| > n then "..." else "")
  }

  /** Shortening an already shortened text changes nothing more. */
  lemma TruncateIdempotent(s: string, n: nat)
    ensures Truncate(Truncate(s, n), n) == Truncate(s, n)
  {
    if |s| > n {
      var t := Truncate(s, n);
      assert t[..n] + "..." == t;
    }
  }

  /** `s.split(c)[0]`: the part of `s` before its first `c`, or all of `s`. */
  function BeforeFirst(s: string, c: char): (r: string)
    ensures StartsWith(s, r)
    ensures forall k :: 0 <= k < |r| ==> r[k] != c
    ensures |r| < |s| ==> s[|r|] == c
    decreases |s|
  {
    if |s| == 0 || s[0] == c then "" else [s[0]] + BeforeFirst(s[1..], c)
  }

  /** `s.map(f)`: one result per element, in order. */
  function Map<A, B>(f: A -> B, s: seq<A>): (r: seq<B>)
    ensures |r| == |s|
    ensures forall k :: 0 <= k < |s| ==> r[k] == f(s[k])
  {
    seq(|s|, k requires 0 <= k < |s| => f(s[k]))
  }

  /** The fallback data file of a page section: pages inside the section's
      directory read it one level up, every other page reads it beside
      itself. */
  function DataFilePath(pathname: string, section: string, file: string): (r: string)
    ensures EndsWith(r, file)
    ensures Contains(pathname, "/" + section + "/") ==> r == "../" + file
    ensures !Contains(pathname, "/" + section + "/") ==> r == file
  {
    if Contains(pathname, "/" + section + "/") then "../" + file else file
  }

  /** The directory part of a URL path: everything up to and including its
      last `/`, or nothing when it has none. */
  function Dir(path: string): (r: string)
    ensures StartsWith(path, r)
    ensures |r| > 0 ==> r[|r| - 1] == '/'
    decreases |path|
  {
    if |path| == 0 then ""
    else if path[|path| - 1] == '/' then path
    else Dir(path[..|path| - 1])
  }

  /** How a browser resolves a relative reference against the path of the
      current page (section 5.2 of RFC 3986, for references that are a file
      name, optionally after one `../`). */
  function Resolve(base: string, ref: string): string {
    var d := Dir(base);
    if StartsWith(ref, "../") && |d| > 1 then Dir(d[..|d| - 1]) + ref[3..]
    else if StartsWith(ref, "../") then d + ref[3..]
    else d + ref
  }

  /** Appending a file name to a directory: the directory is recovered. */
  lemma {:induction false} DirAppend(x: string, name: string)
    requires forall k :: 0 <= k < |name| ==> name[k] != '/'
    ensures Dir(x + "/" + name) == x + "/"
    decreases |name|
  {
    var p := x + "/" + name;
    if |name| > 0 {
      DirAppend(x, name[..|name| - 1]);
      assert p[..|p| - 1] == x + "/" + name[..|name| - 1];
    }
  }

  /** Wherever the page is, the data path resolves to the same file beside
      the section directory: a page inside the section directory goes up
      one level, a page beside it stays where it is. */
  lemma DataFileResolves(root: string, section: string, page: string, file: string)
    requires forall k :: 0 <= k < |section| ==> section[k] != '/'
    requires forall k :: 0 <= k < |page| ==> page[k] != '/'
    requires forall k :: 0 <= k < |file| ==> file[k] != '/'
    ensures var inside := root + "/" + section + "/" + page;
      Resolve(inside, DataFilePath(inside, section, file)) == root + "/" + file
    ensures var beside := root + "/" + page;
      !Contains(beside, "/" + section + "/") ==> Resolve(beside, DataFilePath(beside, section, file)) == root + "/" + file
  {
    ResolveInside(root, section, page, file);
    ResolveBeside(root, section, page, file);
  }

  lemma ResolveBeside(root: string, section: string, page: string, file: string)
    requires forall k :: 0 <= k < |page| ==> page[k] != '/'
    requires forall k :: 0 <= k < |file| ==> file[k] != '/'
    ensures var beside := root + "/" + page;
      !Contains(beside, "/" + section + "/") ==> Resolve(beside, DataFilePath(beside, section, file)) == root + "/" + file
  {
    var beside := root + "/" + page;
    if !Contains(beside, "/" + section + "/") {
      assert DataFilePath(beside, section, file) == file;
      DirAppend(root, page);
      if |file| >= 3 {
        assert file[..3][2] == file[2] != '/';
      }
    }
  }

  lemma ResolveInside(root: string, section: string, page: string, file: string)
    requires forall k :: 0 <= k < |section| ==> section[k] != '/'
    requires forall k :: 0 <= k < |page| ==> page[k] != '/'
    ensures var inside := root + "/" + section + "/" + page;
      Resolve(inside, DataFilePath(inside, section, file)) == root + "/" + file
  {
    var inside := root + "/" + section + "/" + page;
    SectionMarker(root, section, page);
    assert DataFilePath(inside, section, file) == "../" + file;
    var d := root + "/" + section + "/";
    assert Dir(inside) == d by {
      assert inside == (root + "/" + section) + "/" + page;
      DirAppend(root + "/" + section, page);
    }
    assert Dir(d[..|d| - 1]) == root + "/" by {
      assert d[..|d| - 1] == root + "/" + section;
      DirAppend(root, section);
    }
    assert StartsWith("../" + file, "../") && ("../" + file)[3..] == file;
  }

  /** A page inside the section directory contains the section marker. */
  lemma SectionMarker(root: string, section: string, page: string)
    ensures Contains(root + "/" + section + "/" + page, "/" + section + "/")
  {
    var inside := root + "/" + section + "/" + page;
    var marker := "/" + section + "/";
    assert inside == root + marker + page;
    assert inside[|root|..|root| + |marker|] == marker;
    ContainsAt(inside, marker, |root|);
  }

  /** Every character is in the Basic Multilingual Plane, where one
      character is one UTF-16 code unit. */
  predicate Bmp(s: string) {
    forall k :: 0 <= k < |s| ==> (s[k] as int) < 0x1_0000
  }

  /** JavaScript's `length`: the number of UTF-16 code units, two for a
      character outside the Basic Multilingual Plane. */
  function Utf16Length(s: string): (r: nat)
    ensures r >= |s|
    ensures r == |s| <==> Bmp(s)
    decreases |s|
  {
    if |s| == 0 then 0
    else
      var rest := Utf16Length(s[1..]);
      assert Bmp(s) <==> (s[0] as int) < 0x1_0000 && Bmp(s[1..]) by {
        if (s[0] as int) < 0x1_0000 && Bmp(s[1..]) {
          forall k | 0 <= k < |s| ensures (s[k] as int) < 0x1_0000 {
            if k > 0 { assert s[k] == s[1..][k - 1]; }
          }
        }
      }
      (if (s[0] as int) < 0x1_0000 then 1 else 2) + rest
  }

  /** No two positions of `s` hold the same value. */
  predicate NoDuplicates<T(==)>(s: seq<T>) {
    forall i, j :: 0 <= i < j < |s| ==> s[i] != s[j]
  }
}

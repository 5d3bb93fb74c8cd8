/** Names of files and object keys: the ".csv" suffix test used by both the
    uploader and the loader, and the basename of an object key. Strings are
    sequences of characters; nothing here depends on an encoding. */
module Names {

  const CsvSuffix: string := ".csv"

  predicate EndsWith(s: string, suffix: string) {
    |suffix| <= |s| && s[|s| - |suffix|..] == suffix
  }

  predicate IsCsv(name: string) {
    EndsWith(name, CsvSuffix)
  }

  /** The names that end in ".csv", in their original order: the filter
      `[x for x in names if x.endswith(".csv")]`. */
  function CsvOnly(names: seq<string>): (r: seq<string>)
    ensures forall x :: x in r <==> x in names && IsCsv(x)
    ensures |r| <= |names|
  {
    if names == [] then []
    else (if IsCsv(names[0]) then [names[0]] else []) + CsvOnly(names[1..])
  }

  /** Filtering distributes over concatenation: the order of the input is kept. */
  lemma {:induction false} CsvOnlyAppend(a: seq<string>, b: seq<string>)
    ensures CsvOnly(a + b) == CsvOnly(a) + CsvOnly(b)
  {
    if a == [] {
      assert a + b == b;
    } else {
      assert (a + b)[1..] == a[1..] + b;
      CsvOnlyAppend(a[1..], b);
    }
  }

  /** A list made only of ".csv" names is kept whole. */
  lemma {:induction false} CsvOnlyKeepsAllCsv(names: seq<string>)
    requires forall x :: x in names ==> IsCsv(x)
    ensures CsvOnly(names) == names
  {
    if names != [] {
      CsvOnlyKeepsAllCsv(names[1..]);
    }
  }

  /** `os.path.basename`: the part of a path after its last '/', which is the
      empty string when the path ends in '/'. */
  function Basename(path: string): (b: string)
    ensures '/' !in b
    ensures EndsWith(path, b)
    ensures |b| < |path| ==> path[|path| - |b| - 1] == '/'
  {
    if path == [] || path[|path| - 1] == '/' then []
    else
      var init := path[..|path| - 1];
      var b' := Basename(init);
      assert init[|init| - |b'|..] == b';
      assert path[|path| - |b'| - 1..] == b' + [path[|path| - 1]];
      b' + [path[|path| - 1]]
  }

  /** The three facts above pin the basename down: it is the longest suffix
      without a '/'. */
  lemma BasenameUnique(path: string, b: string)
    requires '/' !in b
    requires EndsWith(path, b)
    requires |b| < |path| ==> path[|path| - |b| - 1] == '/'
    ensures b == Basename(path)
  {
  }
}

/** upload_directory_to_s3: every ".csv" entry of a local directory is
    uploaded to the bucket under a key built from the prefix and the file
    name; a ClientError on one file is reported and the loop goes on. */
module S3Upload {
  import opened Names

  /** The bytes of a file or of an object. */
  type Blob = seq<bv8>

  /** A local directory: its entries in the order os.listdir returns them,
      and the contents of each entry. */
  datatype LocalDir = LocalDir(listing: seq<string>, contents: map<string, Blob>)

  /** Every listed ".csv" entry, the only ones the script opens, can be
      read. */
  predicate Readable(dir: LocalDir) {
    forall f :: f in CsvOnly(dir.listing) ==> f in dir.contents
  }

  /** `s.rstrip('/')`: s without its trailing slashes. */
  function RStripSlashes(s: string): (r: string)
    ensures r <= s
    ensures forall i :: |r| <= i < |s| ==> s[i] == '/'
    ensures r == [] || r[|r| - 1] != '/'
  {
    if s != [] && s[|s| - 1] == '/' then RStripSlashes(s[..|s| - 1]) else s
  }

  /** The three facts above pin `rstrip('/')` down: any prefix of s that is
      followed only by slashes and does not end in one is the result. */
  lemma {:induction false} RStripSlashesUnique(s: string, r: string)
    requires r <= s
    requires forall i :: |r| <= i < |s| ==> s[i] == '/'
    requires r == [] || r[|r| - 1] != '/'
    ensures r == RStripSlashes(s)
    decreases |s|
  {
    if |r| < |s| {
      assert s[|s| - 1] == '/';
      assert r <= s[..|s| - 1];
      RStripSlashesUnique(s[..|s| - 1], r);
    }
  }

  /** The object key of a file: `f"{prefix.rstrip('/')}/{filename}"` for a
      non-empty prefix, the bare file name otherwise. */
  function S3Key(prefix: string, filename: string): string {
    if prefix != [] then RStripSlashes(prefix) + "/" + filename else filename
  }

  /** The key always ends in the file name, after a '/' when there is a
      prefix. */
  lemma S3KeyEndsWithFile(prefix: string, filename: string)
    ensures var key := S3Key(prefix, filename);
      && EndsWith(key, filename)
      && (prefix != [] ==> |key| > |filename| && key[|key| - |filename| - 1] == '/')
  {
    var key := S3Key(prefix, filename);
    assert key[|key| - |filename|..] == filename;
  }

  /** The cases the key rule is meant for. */
  lemma S3KeyExamples(filename: string)
    ensures S3Key("raw/", filename) == "raw/" + filename
    ensures S3Key("raw//", filename) == "raw/" + filename
    ensures S3Key("raw", filename) == "raw/" + filename
    ensures S3Key("", filename) == filename
    ensures S3Key("///", filename) == "/" + filename
  {
    assert "raw//"[..4] == "raw/" && "raw/"[..3] == "raw";
    assert "///"[..2] == "//" && "//"[..1] == "/" && "/"[..0] == "";
  }

  /** Extra trailing slashes on a non-empty prefix make no difference. */
  lemma S3KeyIgnoresTrailingSlashes(prefix: string, filename: string)
    requires prefix != []
    ensures S3Key(prefix + "/", filename) == S3Key(prefix, filename)
  {
    assert (prefix + "/")[..|prefix|] == prefix;
  }

  /** For a fixed prefix, distinct files get distinct keys, so no upload
      overwrites another file's object. */
  lemma S3KeyInjective(prefix: string, f1: string, f2: string)
    requires S3Key(prefix, f1) == S3Key(prefix, f2)
    ensures f1 == f2
  {
    if prefix != [] {
      var p := RStripSlashes(prefix) + "/";
      assert S3Key(prefix, f1) == p + f1 && S3Key(prefix, f2) == p + f2;
      assert f1 == (p + f1)[|p|..] && f2 == (p + f2)[|p|..];
    }
  }

  /** The loader finds the file again: the basename of the key of a file
      name without '/' is that file name, whatever the prefix. */
  lemma S3KeyBasename(prefix: string, filename: string)
    requires '/' !in filename
    ensures Basename(S3Key(prefix, filename)) == filename
  {
    S3KeyEndsWithFile(prefix, filename);
    BasenameUnique(S3Key(prefix, filename), filename);
  }

  /** The keys tried for the given files, in order. */
  function KeysFor(prefix: string, files: seq<string>): (keys: seq<string>)
    ensures |keys| == |files|
    ensures forall i :: 0 <= i < |files| ==> keys[i] == S3Key(prefix, files[i])
  {
    if files == [] then []
    else KeysFor(prefix, files[..|files| - 1]) + [S3Key(prefix, files[|files| - 1])]
  }

  /** The objects after uploading the files one by one, starting from
      `objects`: an upload stores the file under its key unless the service
      refuses that key with a ClientError, which leaves the bucket as it
      was. */
  function PutAll(objects: map<string, Blob>, refused: set<string>, prefix: string,
                  files: seq<string>, contents: map<string, Blob>): (r: map<string, Blob>)
    requires forall f :: f in files ==> f in contents
    ensures objects.Keys <= r.Keys
    ensures forall k :: k in r && k !in objects ==> k in KeysFor(prefix, files) && k !in refused
  {
    if files == [] then objects
    else
      var f := files[|files| - 1];
      var before := PutAll(objects, refused, prefix, files[..|files| - 1], contents);
      var key := S3Key(prefix, f);
      if key in refused then before else before[key := contents[f]]
  }

  /** What the bucket holds after the uploads: every file whose key is not
      refused is stored, with its own contents, under its key; every other
      key keeps what it had. */
  lemma {:induction false} PutAllSpec(objects: map<string, Blob>, refused: set<string>, prefix: string,
                                      files: seq<string>, contents: map<string, Blob>)
    requires forall f :: f in files ==> f in contents
    ensures var r := PutAll(objects, refused, prefix, files, contents);
      && (forall f :: f in files && S3Key(prefix, f) !in refused ==>
            S3Key(prefix, f) in r && r[S3Key(prefix, f)] == contents[f])
      && (forall k :: k in refused || (forall f :: f in files ==> k != S3Key(prefix, f)) ==>
            (k in r <==> k in objects) && (k in r ==> r[k] == objects[k]))
  {
    if files != [] {
      var init := files[..|files| - 1];
      var last := files[|files| - 1];
      PutAllSpec(objects, refused, prefix, init, contents);
      var r := PutAll(objects, refused, prefix, files, contents);
      forall f | f in files && S3Key(prefix, f) !in refused
        ensures S3Key(prefix, f) in r && r[S3Key(prefix, f)] == contents[f]
      {
        if S3Key(prefix, f) == S3Key(prefix, last) {
          S3KeyInjective(prefix, f, last);
        } else {
          assert f in init;
        }
      }
      forall k | k in refused || (forall f :: f in files ==> k != S3Key(prefix, f))
        ensures (k in r <==> k in objects) && (k in r ==> r[k] == objects[k])
      {
        assert k in refused || k != S3Key(prefix, last);
      }
    }
  }

  /** The S3 bucket: the stored objects, the keys the service refuses with a
      ClientError, and the keys of every upload_file call so far. */
  class Bucket {
    var objects: map<string, Blob>
    var attempts: seq<string>
    const refused: set<string>

    constructor (objects: map<string, Blob>, refused: set<string>)
      ensures this.objects == objects && this.refused == refused && attempts == []
    {
      this.objects := objects;
      this.refused := refused;
      attempts := [];
    }

    /** `s3.upload_file(...)`: `failed` when it raises ClientError. */
    method UploadFile(key: string, body: Blob) returns (failed: bool)
      modifies this
      ensures failed <==> key in refused
      ensures attempts == old(attempts) + [key]
      ensures objects == if failed then old(objects) else old(objects)[key := body]
    {
      attempts := attempts + [key];
      failed := key in refused;
      if !failed {
        objects := objects[key := body];
      }
    }
  }

  /** The `for filename in files` loop: each file is uploaded once, in
      order, and a ClientError does not stop the loop. */
  method UploadEach(files: seq<string>, contents: map<string, Blob>, bucket: Bucket, prefix: string)
    requires forall f :: f in files ==> f in contents
    modifies bucket
    ensures bucket.attempts == old(bucket.attempts) + KeysFor(prefix, files)
    ensures bucket.objects == PutAll(old(bucket.objects), bucket.refused, prefix, files, contents)
  {
    var i := 0;
    while i < |files|
      invariant 0 <= i <= |files|
      invariant bucket.attempts == old(bucket.attempts) + KeysFor(prefix, files[..i])
      invariant bucket.objects == PutAll(old(bucket.objects), bucket.refused, prefix, files[..i], contents)
    {
      var filename := files[i];
      var key := S3Key(prefix, filename);
      assert files[..i + 1][..i] == files[..i] && files[..i + 1][i] == filename;
      ghost var attempted := bucket.attempts;
      var failed := bucket.UploadFile(key, contents[filename]);
      assert bucket.attempts == attempted + [key];
      i := i + 1;
    }
    assert files[..i] == files;
  }

  /** upload_directory_to_s3: the ".csv" entries, in listing order, are each
      uploaded exactly once under their key. Without ".csv" entries it
      returns before any upload. */
  method UploadDirectoryToS3(dir: LocalDir, bucket: Bucket, prefix: string)
    requires Readable(dir)
    modifies bucket
    ensures bucket.attempts == old(bucket.attempts) + KeysFor(prefix, CsvOnly(dir.listing))
    ensures bucket.objects == PutAll(old(bucket.objects), bucket.refused, prefix, CsvOnly(dir.listing), dir.contents)
  {
    var files := CsvOnly(dir.listing);
    if files == [] {
      return;
    }
    UploadEach(files, dir.contents, bucket, prefix);
  }
}

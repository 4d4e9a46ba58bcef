/** File names of the image store (`supabase_storage.py`): the sanitised stem
 *  shared by `generate_image_filename`, `generate_local_filename` and
 *  `upload_image`, and the local name `download_image` derives from a stored
 *  name.  The storage bucket and the local file system are left out; their
 *  outcome is a parameter. */
module Storage {
  import opened Wrappers
  import opened Text

  // ---------------------------------------------------------------------------
  // re.sub(r'\W+', '_', s) and .strip('_')

  /** `\w` on ASCII: letters, digits and the underscore. */
  predicate IsWordChar(c: char)
  {
    ('a' <= c <= 'z') || ('A' <= c <= 'Z') || IsDigit(c) || c == '_'
  }

  predicate IsNonWord(c: char) { !IsWordChar(c) }

  predicate IsUnderscore(c: char) { c == '_' }

  /** The letters and digits of `s`, in order. */
  function Alnums(s: string): string
  {
    if s == [] then [] else (if IsWordChar(s[0]) && s[0] != '_' then [s[0]] else []) + Alnums(s[1..])
  }

  lemma {:induction false} AlnumsAppend(a: string, b: string)
    ensures Alnums(a + b) == Alnums(a) + Alnums(b)
  {
    if a == [] {
      assert a + b == b;
    } else {
      assert (a + b)[0] == a[0];
      assert (a + b)[1..] == a[1..] + b;
      AlnumsAppend(a[1..], b);
    }
  }

  /** A stretch of non-word characters or underscores holds no letter or digit. */
  lemma {:induction false} AlnumsNone(s: string)
    requires forall i :: 0 <= i < |s| ==> !IsWordChar(s[i]) || s[i] == '_'
    ensures Alnums(s) == []
  {
    if s != [] {
      AlnumsNone(s[1..]);
    }
  }

  /** `re.sub(r'\W+', '_', s)`: every maximal run of non-word characters
   *  becomes one underscore.  The result is made of word characters only and
   *  is no longer than `s`. */
  function SubNonWord(s: string): (r: string)
    ensures forall i :: 0 <= i < |r| ==> IsWordChar(r[i])
    ensures |r| <= |s|
    decreases |s|
  {
    if s == [] then []
    else if IsWordChar(s[0]) then [s[0]] + SubNonWord(s[1..])
    else
      var tail := StripLeft(s, IsNonWord);
      "_" + SubNonWord(tail)
  }

  /** The substitution keeps the letters and digits of `s`, in order. */
  lemma {:induction false} SubNonWordAlnums(s: string)
    ensures Alnums(SubNonWord(s)) == Alnums(s)
    decreases |s|
  {
    if s == [] {
    } else if IsWordChar(s[0]) {
      var rest := SubNonWord(s[1..]);
      assert SubNonWord(s) == [s[0]] + rest;
      SubNonWordAlnums(s[1..]);
      AlnumsCons(s[0], rest);
    } else {
      var tail := StripLeft(s, IsNonWord);
      var rest := SubNonWord(tail);
      assert SubNonWord(s) == "_" + rest;
      SubNonWordAlnums(tail);
      AlnumsCons('_', rest);
      AlnumsOfRun(s, tail);
    }
  }

  lemma AlnumsCons(c: char, s: string)
    ensures Alnums([c] + s) == (if IsWordChar(c) && c != '_' then [c] else []) + Alnums(s)
  {
    assert ([c] + s)[1..] == s;
  }

  /** Dropping a leading run of non-word characters keeps the letters and digits. */
  lemma AlnumsOfRun(s: string, tail: string)
    requires |tail| <= |s| && tail == s[|s| - |tail|..]
    requires forall i :: 0 <= i < |s| - |tail| ==> !IsWordChar(s[i])
    ensures Alnums(s) == Alnums(tail)
  {
    var run := s[..|s| - |tail|];
    assert run + tail == s;
    AlnumsNone(run);
    AlnumsAppend(run, tail);
  }

  /** The substitution adds no upper-case letter. */
  lemma {:induction false} SubNonWordNoUpper(s: string)
    requires forall i :: 0 <= i < |s| ==> !IsUpper(s[i])
    ensures forall i :: 0 <= i < |SubNonWord(s)| ==> !IsUpper(SubNonWord(s)[i])
    decreases |s|
  {
    if s == [] {
    } else if IsWordChar(s[0]) {
      assert forall i :: 0 <= i < |s[1..]| ==> s[1..][i] == s[i + 1];
      SubNonWordNoUpper(s[1..]);
      assert SubNonWord(s) == [s[0]] + SubNonWord(s[1..]);
    } else {
      var tail := StripLeft(s, IsNonWord);
      assert forall i :: 0 <= i < |tail| ==> tail[i] == s[|s| - |tail| + i];
      SubNonWordNoUpper(tail);
      assert SubNonWord(s) == "_" + SubNonWord(tail);
    }
  }

  /** A string of word characters is left unchanged. */
  lemma {:induction false} SubNonWordOfWordChars(s: string)
    requires forall i :: 0 <= i < |s| ==> IsWordChar(s[i])
    ensures SubNonWord(s) == s
    decreases |s|
  {
    if s != [] {
      assert IsWordChar(s[0]);
      assert forall i :: 0 <= i < |s[1..]| ==> s[1..][i] == s[i + 1];
      SubNonWordOfWordChars(s[1..]);
      assert [s[0]] + s[1..] == s;
    }
  }

  /** The stem: `re.sub(r'\W+', '_', name.lower()).strip('_')`. */
  function SafeName(name: string): string
  {
    StripBoth(SubNonWord(Lower(name)), IsUnderscore)
  }

  /** Stripping underscores from both ends keeps the letters and digits, and
   *  every character left is one of the input's word characters. */
  lemma StripUnderscores(s: string)
    requires forall i :: 0 <= i < |s| ==> IsWordChar(s[i]) && !IsUpper(s[i])
    ensures Alnums(StripBoth(s, IsUnderscore)) == Alnums(s)
    ensures forall i :: 0 <= i < |StripBoth(s, IsUnderscore)| ==>
      IsWordChar(StripBoth(s, IsUnderscore)[i]) && !IsUpper(StripBoth(s, IsUnderscore)[i])
  {
    var l := StripLeft(s, IsUnderscore);
    StripLeftAlnums(s);
    StripRightAlnums(l);
  }

  lemma StripLeftAlnums(s: string)
    ensures Alnums(StripLeft(s, IsUnderscore)) == Alnums(s)
  {
    var l := StripLeft(s, IsUnderscore);
    var dropped := s[..|s| - |l|];
    assert dropped + l == s;
    AlnumsNone(dropped);
    AlnumsAppend(dropped, l);
  }

  lemma StripRightAlnums(l: string)
    ensures Alnums(StripRight(l, IsUnderscore)) == Alnums(l)
  {
    var r := StripRight(l, IsUnderscore);
    var dropped := l[|r|..];
    assert r + dropped == l;
    AlnumsNone(dropped);
    AlnumsAppend(r, dropped);
  }

  /** The stem holds only lower-case letters, digits and underscores, neither
   *  starts nor ends with an underscore, and keeps the letters and digits of
   *  the lower-cased name in order. */
  lemma SafeNameShape(name: string)
    ensures forall i :: 0 <= i < |SafeName(name)| ==> IsWordChar(SafeName(name)[i]) && !IsUpper(SafeName(name)[i])
    ensures SafeName(name) == [] || (SafeName(name)[0] != '_' && SafeName(name)[|SafeName(name)| - 1] != '_')
    ensures Alnums(SafeName(name)) == Alnums(Lower(name))
  {
    SubNonWordAlnums(Lower(name));
    SubNonWordNoUpper(Lower(name));
    StripUnderscores(SubNonWord(Lower(name)));
  }

  /** Sanitising a stem again returns it unchanged. */
  lemma SafeNameIdempotent(name: string)
    ensures SafeName(SafeName(name)) == SafeName(name)
  {
    var s := SafeName(name);
    SafeNameShape(name);
    assert Lower(s) == s;
    SubNonWordOfWordChars(s);
    StripBothKeeps(s, IsUnderscore);
  }

  // ---------------------------------------------------------------------------
  // The file names

  /** `generate_image_filename(name, version)` */
  function ImageFileName(name: string, version: int): string
  {
    SafeName(name) + "_" + IntToDecimal(version) + ".png"
  }

  /** `generate_local_filename(name)` */
  function LocalFileName(name: string): string
  {
    SafeName(name) + ".png"
  }

  /** Different non-negative versions of a name get different file names, and
   *  a versioned name is the stem, an underscore, the version and ".png". */
  lemma VersionedNamesDistinct(name: string, v1: nat, v2: nat)
    requires v1 != v2
    ensures ImageFileName(name, v1) != ImageFileName(name, v2)
  {
    DecimalsBetween(SafeName(name) + "_", v1, v2, ".png");
  }

  /** Two different decimals between the same prefix and suffix give different strings. */
  lemma DecimalsBetween(p: string, v1: nat, v2: nat, q: string)
    requires v1 != v2
    ensures p + NatToDecimal(v1) + q != p + NatToDecimal(v2) + q
  {
    var d1, d2 := NatToDecimal(v1), NatToDecimal(v2);
    if p + d1 + q == p + d2 + q {
      assert |d1| == |d2|;
      assert d1 == (p + d1 + q)[|p|..|p| + |d1|];
      assert d2 == (p + d2 + q)[|p|..|p| + |d2|];
      DecimalOfNat(v1);
      DecimalOfNat(v2);
      assert false;
    }
  }

  /** What the image store answered to an upload: an exception, or a response
   *  with an optional status code and its text. */
  datatype UploadOutcome = UploadRaised(message: string) | UploadResponse(statusCode: Option<int>, text: string)

  /** `upload_image(name, image_bytes, bucket)`: on success the stored name is
   *  exactly the local file name; a status of 400 or more or an exception is a
   *  failure with its message. */
  function UploadImage(name: string, outcome: UploadOutcome): (r: (bool, string))
    ensures r.0 ==> r.1 == LocalFileName(name)
    ensures r.0 <==> outcome.UploadResponse? && !(outcome.statusCode.Some? && outcome.statusCode.value >= 400)
    ensures outcome.UploadRaised? ==> r.1 == "Exception during upload: " + outcome.message
  {
    var fileName := LocalFileName(name);
    match outcome
    case UploadRaised(message) => (false, "Exception during upload: " + message)
    case UploadResponse(statusCode, text) =>
      if statusCode.Some? && statusCode.value >= 400 then (false, "Upload failed: " + text)
      else (true, fileName)
  }

  // ---------------------------------------------------------------------------
  // download_image

  /** `p.rfind(c)` */
  function RFind(p: string, c: char): (r: int)
    ensures -1 <= r < |p|
    ensures r == -1 ==> c !in p
    ensures r >= 0 ==> p[r] == c
    ensures forall j :: r < j < |p| ==> p[j] != c
  {
    if p == [] then -1
    else if p[|p| - 1] == c then |p| - 1
    else RFind(p[..|p| - 1], c)
  }

  /** `os.path.splitext(p)[0]` for POSIX paths: the last extension of the last
   *  path component is removed, unless that component consists of dots up to
   *  its last dot (as in ".bashrc"). */
  function RemoveExtension(p: string): (root: string)
    ensures root == p || (|root| < |p| && p[|root|] == '.')
    ensures root == p[..|root|]
  {
    var sepIndex := RFind(p, '/');
    var dotIndex := RFind(p, '.');
    if dotIndex > sepIndex && exists j :: sepIndex + 1 <= j < dotIndex && p[j] != '.' then p[..dotIndex]
    else p
  }

  /** `os.path.join(directory, name)` for a relative name. */
  function JoinPath(directory: string, name: string): string
  {
    if name != [] && name[0] == '/' then name
    else if directory == [] || directory[|directory| - 1] == '/' then directory + name
    else directory + "/" + name
  }

  /** The local name `download_image` gives a stored image. */
  function DownloadLocalName(imageName: string): string
  {
    LocalFileName(RemoveExtension(imageName))
  }

  /** `download_image(image_name, bucket, download_dir)`: the outcome of the
   *  download is None on success or the exception's message. */
  function DownloadImage(imageName: string, downloadDir: string, failure: Option<string>): (r: (bool, string))
    ensures r.0 <==> failure.None?
    ensures r.0 ==> r.1 == JoinPath(downloadDir, DownloadLocalName(imageName))
  {
    var baseName := RemoveExtension(imageName);
    var localName := LocalFileName(baseName);
    var localPath := JoinPath(downloadDir, localName);
    if failure.Some? then (false, "Failed to download image: " + failure.value)
    else (true, localPath)
  }

  /** Downloading an uploaded image stores it under the name it was uploaded
   *  with (when the stem is not empty). */
  lemma DownloadOfUpload(name: string)
    requires SafeName(name) != []
    ensures DownloadLocalName(LocalFileName(name)) == LocalFileName(name)
  {
    var stem := SafeName(name);
    SafeNameShape(name);
    RemovePng(stem);
    SafeNameIdempotent(name);
  }

  /** A stem of word characters that does not start with a dot loses exactly
   *  its ".png" extension. */
  lemma RemovePng(stem: string)
    requires stem != [] && stem[0] != '.'
    requires forall i :: 0 <= i < |stem| ==> IsWordChar(stem[i])
    ensures RemoveExtension(stem + ".png") == stem
  {
    var p := stem + ".png";
    assert p[|stem|] == '.';
    assert forall j :: 0 <= j < |p| ==> p[j] != '/' by {
      forall j | 0 <= j < |p|
        ensures p[j] != '/'
      {
        if j < |stem| {
          assert p[j] == stem[j];
        }
      }
    }
    assert RFind(p, '/') == -1;
    assert RFind(p, '.') == |stem|;
    assert p[0] != '.' by { assert p[0] == stem[0]; }
    assert p[..|stem|] == stem;
  }
}

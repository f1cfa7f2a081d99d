/** The upload filter: an uploaded file is accepted only when its original
    name ends in an image extension, letters compared without regard to
    case. */
module ImageFilter {
  import opened Common

  /** The filter's answer: accept the file, or refuse it with an error. */
  datatype Verdict = Accept | Reject(message: string)

  const RejectMessage: string := "Only image files are allowed!"

  /** The extensions the filter admits, in lower case. */
  const ImageExtensions: seq<string> := ["jpg", "jpeg", "png", "gif"]

  /** Case folding as the pattern's case-insensitive flag applies it to the
      (ASCII) letters of the extensions: no character outside ASCII folds
      onto an ASCII letter, so folding ASCII upper case is enough. */
  function LowerChar(c: char): char {
    if 'A' <= c <= 'Z' then ((c as int) + 32) as char else c
  }

  function Lower(s: seq<char>): seq<char> {
    seq(|s|, i requires 0 <= i < |s| => LowerChar(s[i]))
  }

  function UpperChar(c: char): char {
    if 'a' <= c <= 'z' then ((c as int) - 32) as char else c
  }

  function Upper(s: seq<char>): seq<char> {
    seq(|s|, i requires 0 <= i < |s| => UpperChar(s[i]))
  }

  predicate EndsWith(s: seq<char>, suffix: seq<char>) {
    |suffix| <= |s| && s[|s| - |suffix|..] == suffix
  }

  /** The filter, as its pattern reads: a dot, one of the alternatives, then
      the end of the name, compared case-insensitively. */
  function FilterImage(name: string): (v: Verdict)
    ensures v.Reject? ==> v.message == RejectMessage
  {
    var folded := Lower(name);
    if EndsWith(folded, ".jpg") || EndsWith(folded, ".jpeg")
       || EndsWith(folded, ".png") || EndsWith(folded, ".gif")
    then Accept
    else Reject(RejectMessage)
  }

  /** The position of the last occurrence of `c` in `s`, if any. */
  function LastIndexOf(s: seq<char>, c: char): (r: Option<nat>)
    ensures r.Some? ==> r.value < |s| && s[r.value] == c && c !in s[r.value + 1..]
    ensures r.None? ==> c !in s
  {
    if s == [] then None
    else if s[|s| - 1] == c then Some(|s| - 1)
    else
      var r := LastIndexOf(s[..|s| - 1], c);
      assert s == s[..|s| - 1] + [s[|s| - 1]];
      r
  }

  /** The extension of a file name: the text after its last dot, or nothing
      when the name has no dot. */
  function Extension(name: string): Option<string> {
    match LastIndexOf(name, '.')
    case None => None
    case Some(i) => Some(name[i + 1..])
  }

  /** The last occurrence is the only occurrence with none after it. */
  lemma LastIndexOfUnique(s: seq<char>, c: char, j: nat)
    requires j < |s| && s[j] == c && c !in s[j + 1..]
    ensures LastIndexOf(s, c) == Some(j)
  {
  }

  lemma LowerSlice(s: seq<char>, k: nat)
    requires k <= |s|
    ensures Lower(s)[k..] == Lower(s[k..])
  {
  }

  /** Folding never produces a dot from anything but a dot. */
  lemma LowerDot(s: seq<char>)
    ensures '.' in Lower(s) <==> '.' in s
  {
    if '.' in s {
      var k :| 0 <= k < |s| && s[k] == '.';
      assert Lower(s)[k] == '.';
    }
    if '.' in Lower(s) {
      var k :| 0 <= k < |s| && Lower(s)[k] == '.';
      assert s[k] == '.';
    }
  }

  /** A name ends in "." followed by a dot-free, already folded extension
      `ext` exactly when its extension folds to `ext`. */
  lemma EndsWithDotIff(name: string, ext: string)
    requires '.' !in ext && Lower(ext) == ext
    ensures EndsWith(Lower(name), ['.'] + ext)
            <==> Extension(name).Some? && Lower(Extension(name).value) == ext
  {
    var n := |name|;
    var m := |ext|;
    if EndsWith(Lower(name), ['.'] + ext) {
      var j := n - m - 1;
      assert Lower(name)[j] == (['.'] + ext)[0] == '.';
      assert name[j] == '.';
      LowerSlice(name, j + 1);
      assert Lower(name[j + 1..]) == ext;
      LowerDot(name[j + 1..]);
      LastIndexOfUnique(name, '.', j);
    }
    if Extension(name).Some? && Lower(Extension(name).value) == ext {
      var i := LastIndexOf(name, '.').value;
      LowerSlice(name, i + 1);
      assert Lower(name)[i] == '.';
      assert Lower(name)[i..] == ['.'] + Lower(name)[i + 1..];
    }
  }

  /** The filter accepts a name exactly when its extension, folded to lower
      case, is one of the image extensions; otherwise it refuses with the
      image-only error. */
  lemma FilterImageByExtension(name: string)
    ensures FilterImage(name) == Accept
            <==> Extension(name).Some? && Lower(Extension(name).value) in ImageExtensions
    ensures FilterImage(name) != Accept ==> FilterImage(name) == Reject(RejectMessage)
  {
    EndsWithDotIff(name, "jpg");
    EndsWithDotIff(name, "jpeg");
    EndsWithDotIff(name, "png");
    EndsWithDotIff(name, "gif");
    assert ['.'] + "jpg" == ".jpg";
    assert ['.'] + "jpeg" == ".jpeg";
    assert ['.'] + "png" == ".png";
    assert ['.'] + "gif" == ".gif";
  }

  /** Changing the case of the letters of a name never changes the verdict. */
  lemma FilterImageIgnoresCase(name: string)
    ensures FilterImage(Upper(name)) == FilterImage(name)
    ensures FilterImage(Lower(name)) == FilterImage(name)
  {
    assert Lower(Upper(name)) == Lower(name);
    assert Lower(Lower(name)) == Lower(name);
  }
}

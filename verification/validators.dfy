/**
 * Upload validators (projects/validators.py): a size limit and an
 * extension allow-list. The extension is taken as `os.path.splitext` does
 * on a POSIX path: the text from the last `.` of the final path component,
 * provided that component has a character other than `.` before it; the
 * dot is then dropped and the rest lower-cased.
 */
module Validators {
  import opened Models
  import opened Strings

  const DefaultMaxFileSize: nat := 5 * 1024 * 1024

  const DefaultAllowedExtensions: seq<string> := ["pdf", "doc", "docx", "xls", "xlsx", "png", "jpg", "jpeg"]

  /** `validate_file_size`: rejected iff strictly larger than the limit. */
  function ValidateFileSize(size: int, maxSize: int): (r: Validation)
    ensures r == Accepted <==> size <= maxSize
  {
    if size > maxSize then ValidationError else Accepted
  }

  lemma SizeLimitIsInclusive()
    ensures ValidateFileSize(DefaultMaxFileSize, DefaultMaxFileSize) == Accepted
    ensures ValidateFileSize(DefaultMaxFileSize + 1, DefaultMaxFileSize) == ValidationError
    ensures ValidateFileSize(6 * 1024 * 1024, DefaultMaxFileSize) == ValidationError
  {
  }

  /** Index of the last `c` in `s`, or -1 (Python's `str.rfind`). */
  function LastIndexOf(s: string, c: char): (i: int)
    ensures -1 <= i < |s|
    ensures i >= 0 ==> s[i] == c
    ensures forall j :: i < j < |s| ==> s[j] != c
  {
    if |s| == 0 then -1
    else if s[|s| - 1] == c then |s| - 1
    else LastIndexOf(s[..|s| - 1], c)
  }

  predicate HasNonDot(s: string)
  {
    exists i :: 0 <= i < |s| && s[i] != '.'
  }

  /**
   * Where `os.path.splitext` (posixpath) cuts: at the last `.` when it lies
   * in the final path component and something other than `.` precedes it
   * there; otherwise at the end (no extension).
   */
  function ExtensionStart(p: string): (i: int)
    ensures 0 <= i <= |p|
    ensures i < |p| ==> p[i] == '.'
    ensures forall k :: i < k < |p| ==> p[k] != '.' && p[k] != '/'
  {
    var sep := LastIndexOf(p, '/');
    var dot := LastIndexOf(p, '.');
    if dot > sep && HasNonDot(p[sep + 1..dot]) then dot else |p|
  }

  /** `os.path.splitext`: root and extension; the extension is empty or a `.` followed by neither `.` nor `/`. */
  function SplitExt(p: string): (r: (string, string))
    ensures r.0 + r.1 == p
    ensures r.1 != "" ==> r.1[0] == '.'
    ensures forall k :: 0 < k < |r.1| ==> r.1[k] != '.'
    ensures forall k :: 0 <= k < |r.1| ==> r.1[k] != '/'
  {
    var i := ExtensionStart(p);
    assert p[..i] + p[i..] == p;
    (p[..i], p[i..])
  }

  /** `os.path.splitext(name)[1][1:].lower()`: the extension without its dot, lower-cased. */
  function Extension(name: string): (ext: string)
    ensures forall i :: 0 <= i < |ext| ==> ext[i] != '.' && ext[i] != '/' && !('A' <= ext[i] <= 'Z')
    ensures SplitExt(name).1 == "" ==> ext == ""
  {
    Lower(DropDot(SplitExt(name).1))
  }

  /**
   * A cut is made whenever there is one to make: if the final path component
   * has a `.` with a non-dot character before it, the extension starts at the
   * last `.` of the name.
   */
  lemma ExtensionStartComplete(p: string, j: int, d: int)
    requires 0 <= j < d < |p| && p[d] == '.' && p[j] != '.'
    requires forall k :: j <= k < |p| ==> p[k] != '/'
    ensures ExtensionStart(p) == LastIndexOf(p, '.') < |p|
  {
    var sep := LastIndexOf(p, '/');
    var dot := LastIndexOf(p, '.');
    assert d <= dot;
    assert sep < j;
    var part := p[sep + 1..dot];
    assert part[j - (sep + 1)] == p[j];
    assert HasNonDot(part);
  }

  /** So the extension is the lower-cased text after the last `.` of the name. */
  lemma ExtensionIsTextAfterLastDot(p: string, j: int, d: int)
    requires 0 <= j < d < |p| && p[d] == '.' && p[j] != '.'
    requires forall k :: j <= k < |p| ==> p[k] != '/'
    ensures SplitExt(p).1 == p[LastIndexOf(p, '.')..]
    ensures Extension(p) == Lower(p[LastIndexOf(p, '.') + 1..])
  {
    ExtensionStartComplete(p, j, d);
    var i := LastIndexOf(p, '.');
    assert SplitExt(p).1 == p[i..];
    assert DropDot(p[i..]) == p[i + 1..];
  }

  /**
   * The leading-dot rule: a cut is made only after a non-dot character of the
   * final path component, so a basename whose only dots are leading has no
   * extension; and the cut, when made, is at the last `.` of the name.
   */
  lemma ExtensionStartSound(p: string)
    requires ExtensionStart(p) < |p|
    ensures ExtensionStart(p) == LastIndexOf(p, '.')
    ensures exists j :: LastIndexOf(p, '/') < j < ExtensionStart(p) && p[j] != '.'
  {
    var sep := LastIndexOf(p, '/');
    var dot := LastIndexOf(p, '.');
    assert dot > sep && HasNonDot(p[sep + 1..dot]);
    var part := p[sep + 1..dot];
    var i :| 0 <= i < |part| && part[i] != '.';
    assert p[sep + 1 + i] == part[i];
  }

  /** A basename made only of dots (after its last `/`) has no extension. */
  lemma DotsOnlyBasenameHasNoExtension(p: string)
    requires forall k :: LastIndexOf(p, '/') < k < |p| ==> p[k] == '.'
    ensures Extension(p) == ""
  {
    if ExtensionStart(p) < |p| {
      ExtensionStartSound(p);
      assert false;
    }
  }

  /** `[1:]` of an extension: the text after its leading dot. */
  function DropDot(e: string): string
  {
    if |e| == 0 then "" else e[1..]
  }

  lemma DropDotLower(e: string)
    ensures DropDot(Lower(e)) == Lower(DropDot(e))
  {
    if |e| > 0 {
      LowerSlice(e, 1, |e|);
      assert e[1..|e|] == e[1..];
      assert Lower(e)[1..|e|] == Lower(e)[1..];
    }
  }

  /** `validate_file_extension`: accepted iff the extension is in the allowed list. */
  function ValidateFileExtension(name: string, allowed: seq<string>): (r: Validation)
    ensures r == Accepted <==> Extension(name) in allowed
  {
    if Extension(name) in allowed then Accepted else ValidationError
  }

  lemma {:induction false} LastIndexOfLower(s: string, c: char)
    requires !('A' <= c <= 'Z') && !('a' <= c <= 'z')
    ensures LastIndexOf(Lower(s), c) == LastIndexOf(s, c)
    decreases |s|
  {
    if |s| > 0 {
      LowerSlice(s, 0, |s| - 1);
      LastIndexOfLower(s[..|s| - 1], c);
    }
  }

  lemma HasNonDotLower(s: string)
    ensures HasNonDot(Lower(s)) <==> HasNonDot(s)
  {
    if HasNonDot(s) {
      var i :| 0 <= i < |s| && s[i] != '.';
      assert Lower(s)[i] != '.';
    }
    if HasNonDot(Lower(s)) {
      var i :| 0 <= i < |s| && Lower(s)[i] != '.';
      assert s[i] != '.';
    }
  }

  /** Lower-casing commutes with `splitext`: no letter is a separator or a dot. */
  lemma ExtensionStartLower(p: string)
    ensures ExtensionStart(Lower(p)) == ExtensionStart(p)
  {
    var q := Lower(p);
    var sep := LastIndexOf(p, '/');
    var dot := LastIndexOf(p, '.');
    LastIndexOfLower(p, '/');
    LastIndexOfLower(p, '.');
    if dot > sep {
      LowerSlice(p, sep + 1, dot);
      HasNonDotLower(p[sep + 1..dot]);
    }
  }

  /** Lower-casing commutes with `splitext`: no letter is a separator or a dot. */
  lemma SplitExtLower(p: string)
    ensures SplitExt(Lower(p)).1 == Lower(SplitExt(p).1)
  {
    ExtensionStartLower(p);
    var i := ExtensionStart(p);
    LowerSlice(p, i, |p|);
    assert p[i..|p|] == p[i..];
    assert Lower(p)[i..|p|] == Lower(p)[i..];
  }

  /** The extension check is case-insensitive: `A.PDF` is judged as `a.pdf`. */
  lemma ExtensionIgnoresCase(name: string)
    ensures Extension(Lower(name)) == Extension(name)
    ensures ValidateFileExtension(Lower(name), DefaultAllowedExtensions) == ValidateFileExtension(name, DefaultAllowedExtensions)
  {
    var e := SplitExt(name).1;
    calc {
      Extension(Lower(name));
      Lower(DropDot(SplitExt(Lower(name)).1));
      { SplitExtLower(name); }
      Lower(DropDot(Lower(e)));
      { DropDotLower(e); }
      Lower(Lower(DropDot(e)));
      { LowerIdempotent(DropDot(e)); }
      Lower(DropDot(e));
    }
  }

  /** An executable is refused. */
  lemma ExecutableRefused()
    ensures Extension("malware.exe") == "exe"
    ensures ValidateFileExtension("malware.exe", DefaultAllowedExtensions) == ValidationError
  {
    assert "malware.exe"[7] == '.';
    assert LastIndexOf("malware.exe", '/') == -1;
    assert LastIndexOf("malware.exe", '.') == 7;
    assert "malware.exe"[0] != '.';
    assert ExtensionStart("malware.exe") == 7;
    assert SplitExt("malware.exe").1 == ".exe";
  }

  /** An upper-case PDF is accepted. */
  lemma UpperCasePdfAccepted()
    ensures Extension("A.PDF") == "pdf"
    ensures ValidateFileExtension("A.PDF", DefaultAllowedExtensions) == Accepted
  {
    assert LastIndexOf("A.PDF", '/') == -1;
    assert "A.PDF"[1] == '.';
    assert LastIndexOf("A.PDF", '.') == 1;
    assert "A.PDF"[0] != '.';
    assert ExtensionStart("A.PDF") == 1;
    assert SplitExt("A.PDF").1 == ".PDF";
    assert Lower("PDF") == "pdf";
  }

  /** A name without a dot, and a dot-file, have no extension and are refused. */
  lemma NoExtensionRefused()
    ensures Extension("README") == ""
    ensures ValidateFileExtension("README", DefaultAllowedExtensions) == ValidationError
    ensures Extension(".pdf") == ""
    ensures ValidateFileExtension(".pdf", DefaultAllowedExtensions) == ValidationError
  {
    assert LastIndexOf("README", '.') == -1;
    assert ExtensionStart("README") == 6;
    assert LastIndexOf(".pdf", '/') == -1;
    assert ".pdf"[0] == '.';
    assert LastIndexOf(".pdf", '.') == 0;
    assert !HasNonDot(".pdf"[0..0]);
    assert ExtensionStart(".pdf") == 4;
  }
}

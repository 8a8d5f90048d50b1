/** The upload extension filter `allowed_file` (app.py:23, app.py:30-32):
    a file name is accepted exactly when it contains a dot and the text after
    its LAST dot, lower-cased, is one of the five image extensions. */
module Extensions {

  import opened Options

  /** ALLOWED_EXTENSIONS (app.py:23). */
  const AllowedExtensions: set<string> := {"png", "jpg", "jpeg", "bmp", "tiff"}

  /** `str.lower()` restricted to ASCII: only 'A'..'Z' change. */
  function LowerChar(c: char): char
  {
    if 'A' <= c <= 'Z' then (c as int - 'A' as int + 'a' as int) as char else c
  }

  function Lower(s: string): (r: string)
    ensures |r| == |s|
    ensures forall i :: 0 <= i < |s| ==> r[i] == LowerChar(s[i])
  {
    if s == [] then [] else Lower(s[..|s| - 1]) + [LowerChar(s[|s| - 1])]
  }

  /** Lower-casing distributes over concatenation. */
  lemma LowerAppend(a: string, b: string)
    ensures Lower(a + b) == Lower(a) + Lower(b)
  {
  }

  /** Lower-casing twice is lower-casing once. */
  lemma LowerIdempotent(s: string)
    ensures Lower(Lower(s)) == Lower(s)
  {
  }

  /** A dot survives lower-casing, and nothing else becomes a dot. */
  lemma LowerKeepsDots(s: string)
    ensures ('.' in Lower(s)) <==> ('.' in s)
  {
    if '.' in s {
      var i :| 0 <= i < |s| && s[i] == '.';
      assert Lower(s)[i] == '.';
    }
    if '.' in Lower(s) {
      var i :| 0 <= i < |s| && Lower(s)[i] == '.';
      assert s[i] == '.';
    }
  }

  /** The position of the last occurrence of `c` in `s`, if any. */
  function LastIndexOf(s: string, c: char): (r: Option<nat>)
    ensures r.None? <==> c !in s
    ensures r.Some? ==> r.value < |s| && s[r.value] == c && c !in s[r.value + 1..]
  {
    if s == [] then None
    else if s[|s| - 1] == c then Some(|s| - 1)
    else
      assert s == s[..|s| - 1] + [s[|s| - 1]];
      var r := LastIndexOf(s[..|s| - 1], c);
      assert r.Some? ==> s[r.value + 1..] == s[..|s| - 1][r.value + 1..] + [s[|s| - 1]];
      r
  }

  /** `s.rsplit(sep, 1)` for an `s` that contains `sep`: the text before and
      after the last separator; joining them back with `sep` gives `s`. */
  function RSplitOnce(s: string, sep: char): (parts: (string, string))
    requires sep in s
    ensures s == parts.0 + [sep] + parts.1
    ensures sep !in parts.1
  {
    var i := LastIndexOf(s, sep).value;
    assert s == s[..i] + [sep] + s[i + 1..];
    (s[..i], s[i + 1..])
  }

  /** The split is the unique decomposition whose tail holds no separator. */
  lemma {:induction false} RSplitOnceUnique(head: string, sep: char, tail: string)
    requires sep !in tail
    ensures sep in head + [sep] + tail
    ensures RSplitOnce(head + [sep] + tail, sep) == (head, tail)
  {
    var s := head + [sep] + tail;
    assert s[|head|] == sep;
    var (h, t) := RSplitOnce(s, sep);
    assert t == s[|s| - |t|..] == tail;
    assert h == s[..|h|] == head;
  }

  /** allowed_file (app.py:30-32). What it accepts is characterised by
      AllowedFileDecided, NoDotRejected and AllowedFileCaseInsensitive. */
  function AllowedFile(filename: string): (ok: bool)
    ensures ok ==> '.' in filename
  {
    '.' in filename && Lower(RSplitOnce(filename, '.').1) in AllowedExtensions
  }

  /** Only the text after the last dot matters: `head.ext` is accepted exactly
      when `ext` (dot-free) lower-cases to an allowed extension, whatever
      `head` holds, other dots and other extensions included. */
  lemma {:induction false} AllowedFileDecided(head: string, ext: string)
    requires '.' !in ext
    ensures AllowedFile(head + "." + ext) <==> Lower(ext) in AllowedExtensions
  {
    RSplitOnceUnique(head, '.', ext);
  }

  /** A name with no dot at all is never accepted. */
  lemma NoDotRejected(filename: string)
    requires '.' !in filename
    ensures !AllowedFile(filename)
  {
  }

  /** The check is case-insensitive: lower-casing the whole name first does
      not change the verdict. */
  lemma {:induction false} AllowedFileCaseInsensitive(filename: string)
    ensures AllowedFile(Lower(filename)) == AllowedFile(filename)
  {
    LowerKeepsDots(filename);
    if '.' in filename {
      var (head, ext) := RSplitOnce(filename, '.');
      LowerAppend(head + ".", ext);
      LowerAppend(head, ".");
      assert Lower(".") == ".";
      LowerKeepsDots(ext);
      RSplitOnceUnique(Lower(head), '.', Lower(ext));
      assert Lower(filename) == Lower(head) + "." + Lower(ext);
      LowerIdempotent(ext);
    }
  }

  /** Only the last suffix counts, an earlier one is ignored, and an upper
      case suffix is accepted. */
  lemma AcceptedExamples()
    ensures AllowedFile("a.tar.png")
    ensures AllowedFile("BOARD.JPG")
  {
    assert "a.tar.png" == "a.tar" + "." + "png";
    AllowedFileDecided("a.tar", "png");
    assert Lower("png") == "png";
    assert "BOARD.JPG" == "BOARD" + "." + "JPG";
    AllowedFileDecided("BOARD", "JPG");
    assert Lower("JPG") == "jpg";
  }

  /** An allowed suffix followed by another one does not help. */
  lemma LastSuffixDecides()
    ensures !AllowedFile("a.png.exe")
  {
    assert "a.png.exe" == "a.png" + "." + "exe";
    AllowedFileDecided("a.png", "exe");
    assert Lower("exe") == "exe";
    assert "exe"[0] == 'e';
    assert "exe" !in AllowedExtensions;
  }

  /** A name that ends in a dot has an empty suffix and is rejected. */
  lemma TrailingDotRejected()
    ensures !AllowedFile("photo.")
  {
    AllowedFileDecided("photo", "");
  }
}

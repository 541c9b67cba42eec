/** The two string utilities of the Flask front ends: the upload-name check
    `allowed_file` (identical in new.py and app.py) and the side-to-move
    splice new.py applies to the position string before asking for a hint. */
module Web {
  import opened Wrappers
  import opened Strings
  import opened Chess
  import opened Fen
  import opened Assembler

  const AllowedExtensions: set<string> := {"png", "jpg", "jpeg"}

  /** `s.rsplit(sep, 1)`: the text before and after the last separator, or
      the whole string when there is none. */
  function RSplitOnce(s: string, sep: char): (parts: seq<string>)
    ensures |parts| == 1 || |parts| == 2
    ensures |parts| == 2 <==> sep in s
    ensures |parts| == 1 ==> parts[0] == s
    ensures |parts| == 2 ==> parts[0] + [sep] + parts[1] == s && sep !in parts[1]
    decreases |s|
  {
    if |s| == 0 then [s]
    else
      var last := s[|s| - 1];
      var front := s[..|s| - 1];
      assert s == front + [last];
      if last == sep then [front, ""]
      else
        var p := RSplitOnce(front, sep);
        if |p| == 1 then [s] else [p[0], p[1] + [last]]
  }

  /** Position i holds the last separator of s. */
  predicate LastSep(s: string, i: int, sep: char)
  {
    0 <= i < |s| && s[i] == sep && sep !in s[i + 1..]
  }

  /** `allowed_file`: the name holds a '.', and the text after the last '.',
      lower-cased, is png, jpg or jpeg. */
  function AllowedFile(name: string): (ok: bool)
  {
    '.' in name && Lower(RSplitOnce(name, '.')[1]) in AllowedExtensions
  }

  /** The last-separator split cuts at the last separator. */
  lemma RSplitAtLast(s: string, sep: char, i: int)
    requires LastSep(s, i, sep)
    ensures RSplitOnce(s, sep) == [s[..i], s[i + 1..]]
  {
    var p := RSplitOnce(s, sep);
    var j := |p[0]|;
    assert s[j] == sep;
    assert p[1] == s[j + 1..];
    assert forall k | j < k < |s| :: s[k] == s[j + 1..][k - j - 1];
    assert forall k | i < k < |s| :: s[k] == s[i + 1..][k - i - 1];
    assert i == j;
    assert p[0] == s[..i];
  }

  /** `allowed_file` judges the name by the extension after its last '.'
      alone: a name without '.' is refused; otherwise the lower-cased last
      extension must be one of the three. */
  lemma AllowedFileSpec(prefix: string, ext: string)
    ensures '.' !in prefix ==> !AllowedFile(prefix)
    ensures '.' !in ext ==> (AllowedFile(prefix + "." + ext) <==> Lower(ext) in AllowedExtensions)
  {
    if '.' !in ext {
      var s := prefix + "." + ext;
      var i := |prefix|;
      assert s[i] == '.' && s[i + 1..] == ext && s[..i] == prefix;
      RSplitAtLast(s, '.', i);
    }
  }

  /** The verdict on `prefix + "." + ext` for a literal extension. */
  lemma Verdict(prefix: string, ext: string, name: string)
    requires '.' !in ext && name == prefix + "." + ext
    ensures AllowedFile(name) <==> Lower(ext) in AllowedExtensions
  {
    AllowedFileSpec(prefix, ext);
  }

  /** png, jpg and jpeg, written in lower case, are accepted after any
      prefix. */
  lemma AllowedExtensionsAccepted(prefix: string, ext: string)
    requires ext in AllowedExtensions
    ensures AllowedFile(prefix + "." + ext)
  {
    LowerFixed(ext);
    Accepted(prefix, ext, prefix + "." + ext);
  }

  /** The comparison ignores case. */
  lemma AllowedExtensionsAnyCase(prefix: string)
    ensures AllowedFile(prefix + ".PNG") && AllowedFile(prefix + ".JpEg")
  {
    LowerPng();
    Accepted(prefix, "PNG", prefix + ".PNG");
    LowerJpeg();
    Accepted(prefix, "JpEg", prefix + ".JpEg");
  }

  lemma Accepted(prefix: string, ext: string, name: string)
    requires '.' !in ext && name == prefix + "." + ext
    requires Lower(ext) in AllowedExtensions
    ensures AllowedFile(name)
  {
    AllowedFileSpec(prefix, ext);
  }

  lemma LowerPng()
    ensures Lower("PNG") == "png"
  {
  }

  lemma LowerJpeg()
    ensures Lower("JpEg") == "jpeg"
  {
  }

  /** An empty extension, any other extension, and an accepted one followed
      by another are refused. */
  lemma OtherExtensionsRefused(prefix: string)
    ensures !AllowedFile(prefix + ".") && !AllowedFile(prefix + ".gif")
    ensures !AllowedFile(prefix + ".png.exe")
  {
    assert '.' !in "" && '.' !in "gif" && '.' !in "exe";
    Verdict(prefix, "", prefix + ".");
    Verdict(prefix, "gif", prefix + ".gif");
    LowerFixed("gif");
    Verdict(prefix + ".png", "exe", prefix + ".png.exe");
    LowerFixed("exe");
  }

  /** A dot-file such as ".png" passes: `rsplit` gives `['', 'png']`. */
  lemma DotFileAccepted()
    ensures RSplitOnce(".png", '.') == ["", "png"]
    ensures AllowedFile(".png")
    ensures !AllowedFile("png")
  {
    assert ".png"[1..] == "png" && '.' !in "png";
    RSplitAtLast(".png", '.', 0);
    Verdict("", "png", ".png");
    LowerFixed("png");
    AllowedFileSpec("png", "");
  }

  /** The splice in new.py's `run_black_hint`: split the position string on
      spaces, set field 1 to "b", join with spaces. A string with a single
      field makes the assignment raise (None). */
  function SideSplice(fen: string): (r: Option<string>)
    ensures r.None? <==> |Split(fen, ' ')| < 2
  {
    var parts := Split(fen, ' ');
    if |parts| < 2 then None else Some(Join(parts[1 := "b"], ' '))
  }

  /** The splice keeps the number of fields and every field except the
      second, which becomes "b". */
  lemma SpliceFields(fen: string)
    requires SideSplice(fen).Some?
    ensures Split(SideSplice(fen).value, ' ') == Split(fen, ' ')[1 := "b"]
  {
    var parts := Split(fen, ' ')[1 := "b"];
    forall i | 0 <= i < |parts| ensures ' ' !in parts[i] { }
    SplitJoin(parts, ' ');
  }

  /** Splicing twice is splicing once. */
  lemma SpliceIdempotent(fen: string)
    requires SideSplice(fen).Some?
    ensures SideSplice(SideSplice(fen).value) == SideSplice(fen)
  {
    var once := SideSplice(fen).value;
    SpliceFields(fen);
    var parts := Split(fen, ' ')[1 := "b"];
    assert parts[1 := "b"] == parts;
  }

  /** Applied to white_hint.py's position string, the splice gives exactly
      Black_Best_Move.py's position string for the same detections. */
  lemma SpliceTurnsWhiteToBlack(ds: seq<Detected>)
    requires AllValid(ds)
    ensures GenerateFenWhite(ds).Ok? && GenerateFenBlack(ds).Ok?
    ensures SideSplice(GenerateFenWhite(ds).value) == Some(GenerateFenBlack(ds).value)
  {
    AssembleContents(ds);
    var b := Assemble(ds).value;
    FenFields(b, 'w');
    FenFields(b, 'b');
    var w := FenString(b, 'w');
    assert Split(w, ' ')[1 := "b"] == Split(FenString(b, 'b'), ' ');
    JoinSplit(FenString(b, 'b'), ' ');
  }
}

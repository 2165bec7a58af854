/**
 * The two string rules of the directory walk: which directories are not
 * entered and which extension a file has.
 */
module Access {

  /** `s.lastIndexOf(c)`: the position of the last `c` in `s`, or -1. */
  function LastIndexOf(s: string, c: char): (r: int)
    ensures -1 <= r < |s|
    ensures r >= 0 ==> s[r] == c
    ensures forall i :: r < i < |s| ==> s[i] != c
  {
    if |s| == 0 then -1
    else if s[|s| - 1] == c then |s| - 1
    else LastIndexOf(s[..|s| - 1], c)
  }

  /** The extension of a file name: the text after its last '.', or the whole name when it has none. */
  function Extension(name: string): (ext: string)
    ensures '.' !in ext
    ensures |ext| <= |name| && name[|name| - |ext|..] == ext
    ensures '.' in name ==> name[|name| - |ext| - 1] == '.'
    ensures '.' !in name ==> ext == name
  {
    var dot := LastIndexOf(name, '.');
    name[if dot != -1 then dot + 1 else 0..]
  }

  /** A file is handed to the parser when its extension is one of the configured formats. */
  predicate IsCandidate(name: string, formats: set<string>) {
    Extension(name) in formats
  }

  /** `t` occurs in `s` starting at position `i`. */
  predicate OccursAt(s: string, t: string, i: nat) {
    i + |t| <= |s| && s[i..i + |t|] == t
  }

  /** Whether `t` occurs in `s` at some position from `from` on. */
  function ContainsFrom(s: string, t: string, from: nat): (b: bool)
    ensures b <==> exists i: nat :: from <= i && OccursAt(s, t, i)
    decreases |s| - from
  {
    if from + |t| > |s| then false
    else if s[from..from + |t|] == t then assert OccursAt(s, t, from); true
    else ContainsFrom(s, t, from + 1)
  }

  /** `s.contains(t)`. */
  predicate Contains(s: string, t: string) {
    ContainsFrom(s, t, 0)
  }

  /** A directory is not entered when its path contains "dist" anywhere. */
  predicate IsSkippedDirectory(path: string) {
    Contains(path, "dist")
  }

  /** The skip rule is substring containment, not a match on one path segment. */
  lemma SkipIsSubstring()
    ensures IsSkippedDirectory("project/dist")
    ensures IsSkippedDirectory("project/distribution/")
    ensures IsSkippedDirectory("src/redistribute")
    ensures !IsSkippedDirectory("src/main")
  {
    assert OccursAt("project/dist", "dist", 8);
    assert OccursAt("project/distribution/", "dist", 8);
    assert OccursAt("src/redistribute", "dist", 6);
    var p := "src/main";
    assert !ContainsFrom(p, "dist", 4) by {
      assert p[4..8][0] != 'd';
    }
    assert !ContainsFrom(p, "dist", 3) by {
      assert p[3..7][0] != 'd';
    }
    assert !ContainsFrom(p, "dist", 2) by {
      assert p[2..6][0] != 'd';
    }
    assert !ContainsFrom(p, "dist", 1) by {
      assert p[1..5][0] != 'd';
    }
    assert p[0..4][0] != 'd';
  }

  /** For a name made of a base, a '.' and then dot-free text, the extension is that text. */
  lemma {:induction false} ExtensionAfterLastDot(base: string, ext: string)
    requires '.' !in ext
    ensures Extension(base + "." + ext) == ext
  {
    var name := base + "." + ext;
    assert name[|base|] == '.';
    var dot := LastIndexOf(name, '.');
    assert dot == |base|;
    assert name[dot + 1..] == ext;
  }

  /** Only the text after the last '.' counts: "archive.tar.lss" has the extension "lss". */
  lemma MultiDotExtension()
    ensures Extension("archive.tar.lss") == "lss"
  {
    ExtensionAfterLastDot("archive.tar", "lss");
    assert "archive.tar.lss" == "archive.tar" + "." + "lss";
  }

  /** A name without a '.' is its own extension. */
  lemma DotlessExtension()
    ensures Extension("Makefile") == "Makefile"
  {
    assert '.' !in "Makefile";
  }

  /** A backup copy of a JSON file is not handed to the JSON parser. */
  lemma BackupIsNotCandidate()
    ensures IsCandidate("button.json", {"json"})
    ensures !IsCandidate("button.json.bak", {"json"})
  {
    ExtensionAfterLastDot("button", "json");
    assert "button.json" == "button" + "." + "json";
    ExtensionAfterLastDot("button.json", "bak");
    assert "button.json.bak" == "button.json" + "." + "bak";
  }
}

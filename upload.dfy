/**
 * File-name checks applied to profile-picture uploads: `allowed_file`
 * (app.py) and, as an independent reference, the extension test that
 * Flask-WTF's `FileAllowed` validator performs on the profile form.
 */
module Upload {
  import opened Wrappers

  /** ALLOWED_EXTENSIONS of app.py. */
  const AllowedExtensions: set<string> := {"png", "jpg", "jpeg", "gif"}

  /** `str.lower()` on one character. Only ASCII letters are folded. */
  function LowerChar(c: char): char
  {
    if 'A' <= c <= 'Z' then (c as int - 'A' as int + 'a' as int) as char else c
  }

  /** `str.lower()` on a whole string, character by character. */
  function Lower(s: string): string
  {
    seq(|s|, i requires 0 <= i < |s| => LowerChar(s[i]))
  }

  /** The index of the last '.' in `s`, if any. */
  function LastDot(s: string): (r: Option<nat>)
    ensures r.None? <==> '.' !in s
    ensures r.Some? ==> r.value < |s| && s[r.value] == '.' && '.' !in s[r.value + 1..]
  {
    if |s| == 0 then None
    else if s[|s| - 1] == '.' then Some(|s| - 1)
    else
      var r := LastDot(s[..|s| - 1]);
      assert r.Some? ==> s[r.value + 1..] == s[..|s| - 1][r.value + 1..] + [s[|s| - 1]];
      assert r.None? ==> s == s[..|s| - 1] + [s[|s| - 1]];
      r
  }

  /**
   * `filename.rsplit('.', 1)[1]`: the text after the last dot. It is the
   * dot-free suffix of `f` that is preceded by a dot.
   */
  function Extension(f: string): (r: string)
    requires '.' in f
    ensures |r| < |f| && f[|f| - |r| - 1] == '.' && f[|f| - |r|..] == r
    ensures '.' !in r
  {
    f[LastDot(f).value + 1..]
  }

  /** `allowed_file(filename)` of app.py. */
  predicate AllowedFile(f: string)
  {
    '.' in f && Lower(Extension(f)) in AllowedExtensions
  }

  /** `s.endswith(suffix)`. */
  predicate EndsWith(s: string, suffix: string)
  {
    |suffix| <= |s| && s[|s| - |suffix|..] == suffix
  }

  /**
   * The check `FileAllowed(['jpg', 'png', 'jpeg', 'gif'])` makes on the
   * profile form: the lower-cased file name ends with a dot and one of
   * the listed extensions.
   */
  predicate FileAllowedAccepts(f: string)
  {
    var l := Lower(f);
    EndsWith(l, ".jpg") || EndsWith(l, ".png") || EndsWith(l, ".jpeg") || EndsWith(l, ".gif")
  }

  /** A dot-free suffix that follows a dot is the text after the last dot. */
  lemma ExtensionIsDotFreeSuffix(f: string, k: nat)
    requires k < |f| && f[k] == '.' && '.' !in f[k + 1..]
    ensures '.' in f && Extension(f) == f[k + 1..]
  {
    var e := Extension(f);
  }

  /**
   * `allowed_file` holds exactly when some dot is followed by a dot-free
   * tail whose lower-cased text is an allowed extension.
   */
  lemma AllowedFileIff(f: string)
    ensures AllowedFile(f) <==>
      exists k :: 0 <= k < |f| && f[k] == '.' && '.' !in f[k + 1..] && Lower(f[k + 1..]) in AllowedExtensions
  {
    if AllowedFile(f) {
      var e := Extension(f);
      var k := |f| - |e| - 1;
      assert f[k + 1..] == e;
    }
    if exists k :: 0 <= k < |f| && f[k] == '.' && '.' !in f[k + 1..] && Lower(f[k + 1..]) in AllowedExtensions {
      var k :| 0 <= k < |f| && f[k] == '.' && '.' !in f[k + 1..] && Lower(f[k + 1..]) in AllowedExtensions;
      ExtensionIsDotFreeSuffix(f, k);
    }
  }

  /** A file name split at its last dot is allowed iff its extension is. */
  lemma AllowedFileOfSplit(stem: string, ext: string)
    requires '.' !in ext
    ensures AllowedFile(stem + "." + ext) <==> Lower(ext) in AllowedExtensions
  {
    var f := stem + "." + ext;
    assert f[|stem| + 1..] == ext;
    ExtensionIsDotFreeSuffix(f, |stem|);
  }

  /** "a.PNG" is allowed: the extension is compared lower-cased. */
  lemma AllowedFileIgnoresCase()
    ensures AllowedFile("a.PNG")
  {
    AllowedFileOfSplit("a", "PNG");
    assert "a" + "." + "PNG" == "a.PNG";
    assert Lower("PNG") == "png";
  }

  /** "a.tar.gz" is refused: only the text after the last dot counts. */
  lemma AllowedFileUsesLastDot()
    ensures !AllowedFile("a.tar.gz")
  {
    AllowedFileOfSplit("a.tar", "gz");
    assert "a.tar" + "." + "gz" == "a.tar.gz";
    assert |Lower("gz")| == 2;
  }

  /** "png" is refused: a name without a dot has no extension. */
  lemma AllowedFileNeedsDot()
    ensures !AllowedFile("png")
  {
    assert "png"[0] != '.' && "png"[1] != '.' && "png"[2] != '.';
  }

  /** Lower-casing never creates or removes a dot. */
  lemma LowerKeepsDots(s: string)
    ensures |Lower(s)| == |s|
    ensures forall i :: 0 <= i < |s| ==> (Lower(s)[i] == '.' <==> s[i] == '.')
    ensures ('.' in Lower(s)) <==> ('.' in s)
  {
    if '.' in Lower(s) {
      var i :| 0 <= i < |s| && Lower(s)[i] == '.';
      assert s[i] == '.';
    }
    if '.' in s {
      var i :| 0 <= i < |s| && s[i] == '.';
      assert Lower(s)[i] == '.';
    }
  }

  /** Lower-casing commutes with taking a suffix. */
  lemma LowerSuffix(s: string, k: nat)
    requires k <= |s|
    ensures Lower(s)[k..] == Lower(s[k..])
  {
  }

  /** A lower-cased name ending in "." + x, with x dot-free, has extension x up to case. */
  lemma EndsWithDotSuffix(f: string, x: string)
    requires '.' !in x && EndsWith(Lower(f), "." + x)
    ensures '.' in f && Lower(Extension(f)) == x
  {
    var l := Lower(f);
    var k := |f| - |x| - 1;
    assert |l| == |f| && |"." + x| == |x| + 1;
    assert l[k..] == "." + x;
    assert l[k] == '.';
    LowerKeepsDots(f);
    LowerSuffix(f, k + 1);
    assert l[k + 1..] == x;
    LowerKeepsDots(f[k + 1..]);
    ExtensionIsDotFreeSuffix(f, k);
  }

  /** An allowed name's lower-cased form ends with "." and its lower-cased extension. */
  lemma AllowedFileEndsWithExtension(f: string)
    requires AllowedFile(f)
    ensures EndsWith(Lower(f), "." + Lower(Extension(f)))
  {
    var l := Lower(f);
    var e := Extension(f);
    var k := |f| - |e| - 1;
    LowerKeepsDots(f);
    LowerSuffix(f, k);
    LowerSuffix(f, k + 1);
    assert l[k..] == [l[k]] + l[k + 1..];
  }

  /** Every name `allowed_file` accepts also passes `FileAllowed`. */
  lemma AllowedFilePassesFileAllowed(f: string)
    requires AllowedFile(f)
    ensures FileAllowedAccepts(f)
  {
    AllowedFileEndsWithExtension(f);
    var x := Lower(Extension(f));
    assert x == "jpg" || x == "png" || x == "jpeg" || x == "gif";
    assert "." + "jpg" == ".jpg" && "." + "png" == ".png" && "." + "jpeg" == ".jpeg" && "." + "gif" == ".gif";
  }

  /** Every name `FileAllowed` accepts also passes `allowed_file`. */
  lemma FileAllowedPassesAllowedFile(f: string)
    requires FileAllowedAccepts(f)
    ensures AllowedFile(f)
  {
    var l := Lower(f);
    if EndsWith(l, ".jpg") {
      EndsWithDotSuffix(f, "jpg");
    } else if EndsWith(l, ".png") {
      EndsWithDotSuffix(f, "png");
    } else if EndsWith(l, ".jpeg") {
      EndsWithDotSuffix(f, "jpeg");
    } else {
      EndsWithDotSuffix(f, "gif");
    }
  }

  /**
   * The profile form's `FileAllowed` validator and the upload route's
   * `allowed_file` accept exactly the same file names.
   */
  lemma FileAllowedAgreesWithAllowedFile(f: string)
    ensures FileAllowedAccepts(f) <==> AllowedFile(f)
  {
    if AllowedFile(f) {
      AllowedFilePassesFileAllowed(f);
    }
    if FileAllowedAccepts(f) {
      FileAllowedPassesAllowedFile(f);
    }
  }
}

/**
 `App`: the two pieces of pure logic in the web layer, the upload filename check and the
 history page offset. Routes, uploads and the database are not modelled.
 */
module App {
  import opened Text

  /** The allowed-extensions setting when the environment does not override it. */
  const DEFAULT_ALLOWED := "jpg,jpeg,png,bmp,tiff"

  /**
   The allowed extensions: the setting split at every comma, entries kept exactly as
   written (no trimming, no lower-casing); the split loses nothing of the setting.
   */
  function AllowedExtensions(setting: string): (exts: seq<string>)
    ensures |exts| >= 1
    ensures forall i :: 0 <= i < |exts| ==> ',' !in exts[i]
    ensures Join(exts, ',') == setting
  {
    JoinSplit(setting, ',');
    Split(setting, ',')
  }

  /** The five image extensions of the default setting. */
  const DEFAULT_EXTENSIONS: seq<string> := ["jpg", "jpeg", "png", "bmp", "tiff"]

  /** The default setting gives the five image extensions. */
  lemma DefaultExtensions()
    ensures AllowedExtensions(DEFAULT_ALLOWED) == DEFAULT_EXTENSIONS
  {
    DefaultJoin();
    SplitJoin(DEFAULT_EXTENSIONS, ',');
  }

  /** The five extensions joined with commas spell the default setting. */
  lemma DefaultJoin()
    ensures Join(DEFAULT_EXTENSIONS, ',') == DEFAULT_ALLOWED
  {
    assert Join(DEFAULT_EXTENSIONS[4..], ',') == "tiff";
    assert Join(DEFAULT_EXTENSIONS[3..], ',') == "bmp,tiff";
    assert Join(DEFAULT_EXTENSIONS[2..], ',') == "png,bmp,tiff";
    assert Join(DEFAULT_EXTENSIONS[1..], ',') == "jpeg,png,bmp,tiff";
  }

  /**
   `allowed_file`: the name must contain a dot, and the text after its last dot,
   lower-cased, must be one of the allowed entries.
   */
  function AllowedFile(name: string, allowed: seq<string>): (ok: bool)
    ensures '.' !in name ==> !ok
    ensures ok ==> exists i :: 0 <= i < |allowed| && |allowed[i]| < |name| && '.' !in allowed[i]
  {
    '.' in name && Lower(AfterLast(name, '.')) in allowed
  }

  /** A name is judged by its last extension alone, whatever comes before the last dot. */
  lemma AllowedFileByExtension(stem: string, ext: string, allowed: seq<string>)
    requires '.' !in ext
    ensures AllowedFile(stem + ['.'] + ext, allowed) <==> Lower(ext) in allowed
  {
    AfterLastOfJoin(stem, '.', ext);
  }

  /** Only the last extension counts: under the default extensions a name ending ".tar.png" passes... */
  lemma DoubleExtensionAccepted(stem: string)
    ensures AllowedFile(stem + ".tar.png", DEFAULT_EXTENSIONS)
  {
    assert stem + ".tar.png" == (stem + ".tar") + ['.'] + "png";
    AllowedFileByExtension(stem + ".tar", "png", DEFAULT_EXTENSIONS);
    LowerUnchanged("png");
  }

  /** ... and one ending ".png.exe" does not, whatever precedes them. */
  lemma DisguisedExtensionRejected(stem: string)
    ensures !AllowedFile(stem + ".png.exe", DEFAULT_EXTENSIONS)
  {
    assert stem + ".png.exe" == (stem + ".png") + ['.'] + "exe";
    AllowedFileByExtension(stem + ".png", "exe", DEFAULT_EXTENSIONS);
    LowerUnchanged("exe");
  }

  /** The extension is lower-cased before the test: a name ending ".JPG" passes. */
  lemma UpperCaseExtension(stem: string)
    ensures AllowedFile(stem + ".JPG", DEFAULT_EXTENSIONS)
  {
    assert stem + ".JPG" == stem + ['.'] + "JPG";
    AllowedFileByExtension(stem, "JPG", DEFAULT_EXTENSIONS);
    assert Lower("JPG") == "jpg";
  }

  /** A name ending in a dot has an empty extension, which the default list does not allow. */
  lemma TrailingDotRejected(stem: string)
    ensures !AllowedFile(stem + ['.'], DEFAULT_EXTENSIONS)
  {
    assert stem + ['.'] == stem + ['.'] + [];
    AllowedFileByExtension(stem, [], DEFAULT_EXTENSIONS);
  }

  /** A setting written with spaces keeps them: "jpg, png" allows "jpg" and " png". */
  lemma UntrimmedEntries()
    ensures AllowedExtensions("jpg, png") == ["jpg", " png"]
  {
    assert "jpg, png" == "jpg" + [','] + " png";
    SplitUnseparated(" png", ',');
    SplitAtFirst("jpg", ',', " png");
  }

  /** Under the setting "jpg, png" a name ending ".png" is rejected. */
  lemma PaddedEntryNeverMatches(stem: string)
    ensures !AllowedFile(stem + ".png", ["jpg", " png"])
  {
    assert stem + ".png" == stem + ['.'] + "png";
    AllowedFileByExtension(stem, "png", ["jpg", " png"]);
    LowerUnchanged("png");
  }

  /** The offset of a history page: the rows of all earlier pages. */
  function PageOffset(page: int, perPage: int): (offset: int)
    ensures page == 1 ==> offset == 0
    ensures page >= 1 && perPage >= 0 ==> offset >= 0
  {
    (page - 1) * perPage
  }

  /** Consecutive pages start exactly one page size apart, so they neither overlap nor leave gaps. */
  lemma PagesAreContiguous(page: int, perPage: int)
    ensures PageOffset(page + 1, perPage) == PageOffset(page, perPage) + perPage
  {
  }
}

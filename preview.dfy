/**
 * How the client names a fetched file's type and picks its viewer
 * (main.py `_fetch_file_details` and `open_viewer_in_frame`), and the
 * older rule of test_api.py's `open_viewer_in_frame`.
 */
module Preview {
  import opened Strings

  /** `filename.lower().split('.')[-1]` */
  function Extension(name: string): (r: string)
    ensures '.' !in r
  {
    AfterLast(Lower(name), '.')
  }

  lemma LowerKeepsDot(s: string)
    ensures '.' in Lower(s) <==> '.' in s
  {
    if '.' in Lower(s) {
      var i :| 0 <= i < |s| && Lower(s)[i] == '.';
      assert s[i] == '.';
    }
    if '.' in s {
      var i :| 0 <= i < |s| && s[i] == '.';
      assert Lower(s)[i] == '.';
    }
  }

  /** The extension is the lower-cased text after the last dot ... */
  lemma ExtensionAfterLastDot(stem: string, ext: string)
    requires '.' !in ext
    ensures Extension(stem + "." + ext) == Lower(ext)
  {
    LowerKeepsDot(ext);
    assert Lower(stem + "." + ext) == Lower(stem) + "." + Lower(ext);
    AfterLastOf(Lower(stem), '.', Lower(ext));
  }

  /** ... and the whole lower-cased name when there is no dot. */
  lemma ExtensionWithoutDot(name: string)
    requires '.' !in name
    ensures Extension(name) == Lower(name)
  {
    LowerKeepsDot(name);
    SplitNoSeparator(Lower(name), '.');
  }

  const OctetStream := "application/octet-stream"

  /** The extension table of `_fetch_file_details`; unknown extensions are raw bytes. */
  function MimeFor(name: string): string
  {
    match Extension(name)
    case "png" => "image/png"
    case "jpg" => "image/jpeg"
    case "txt" => "text/plain"
    case "json" => "application/json"
    case _ => OctetStream
  }

  lemma FirstCharDiffers(s: string, p: string)
    requires |s| > 0 && |p| > 0 && s[0] != p[0]
    ensures !StartsWith(s, p)
  {
    if |p| <= |s| {
      assert s[..|p|][0] == s[0];
    }
  }

  lemma StartsWithPrefix(p: string, rest: string)
    ensures StartsWith(p + rest, p)
  {
    assert (p + rest)[..|p|] == p;
  }

  lemma NoJ(s: string)
    requires 'j' !in s
    ensures !Contains(s, "json")
  {
    if Contains(s, "json") {
      ContainsFirstChar(s, "json");
    }
  }

  /**
   * What the table promises the viewer: an image type exactly for png and
   * jpg, a text/ type exactly for txt, and, among the other types, "json"
   * exactly for json.
   */
  lemma MimeClasses(name: string)
    ensures StartsWith(MimeFor(name), "image/") <==> Extension(name) in {"png", "jpg"}
    ensures StartsWith(MimeFor(name), "text/") <==> Extension(name) == "txt"
    ensures !StartsWith(MimeFor(name), "image/") ==> (Contains(MimeFor(name), "json") <==> Extension(name) == "json")
    ensures MimeFor(name) == OctetStream <==> Extension(name) !in {"png", "jpg", "txt", "json"}
  {
    var ext := Extension(name);
    var r := MimeFor(name);
    if ext == "png" {
      StartsWithPrefix("image/", "png");
      assert "image/" + "png" == r;
      FirstCharDiffers(r, "text/");
    } else if ext == "jpg" {
      StartsWithPrefix("image/", "jpeg");
      assert "image/" + "jpeg" == r;
      FirstCharDiffers(r, "text/");
    } else if ext == "txt" {
      StartsWithPrefix("text/", "plain");
      assert "text/" + "plain" == r;
      FirstCharDiffers(r, "image/");
      NoJ(r);
    } else if ext == "json" {
      FirstCharDiffers(r, "image/");
      FirstCharDiffers(r, "text/");
      ContainsAt(r, "json", 12);
    } else {
      FirstCharDiffers(r, "image/");
      FirstCharDiffers(r, "text/");
      NoJ(r);
    }
  }

  /** The viewer a file is shown in. */
  datatype View = PointCloud | Image | Text | HexDump

  /** `open_viewer_in_frame` in main.py: the extension first, then the MIME type. */
  function Dispatch(name: string, mime: string): View
  {
    var ext := Extension(name);
    if ext == "npy" || ext == "pcd" then PointCloud
    else if StartsWith(mime, "image/") then Image
    else if StartsWith(mime, "text/") || Contains(mime, "json") then Text
    else HexDump
  }

  /** `open_viewer_in_frame` in test_api.py: JSON by exact type or by extension. */
  function LegacyDispatch(name: string, mime: string): View
  {
    var ext := Extension(name);
    if ext == "npy" || ext == "pcd" then PointCloud
    else if StartsWith(mime, "image/") then Image
    else if StartsWith(mime, "text/") || mime == "application/json" || ext == "json" then Text
    else HexDump
  }

  /**
   * For a file fetched by the main client, the viewer follows from the
   * extension alone: point clouds, then images, then text, else hex.
   */
  lemma DispatchOfFetched(name: string)
    ensures Dispatch(name, MimeFor(name)) ==
      var ext := Extension(name);
      if ext in {"npy", "pcd"} then PointCloud
      else if ext in {"png", "jpg"} then Image
      else if ext in {"txt", "json"} then Text
      else HexDump
  {
    MimeClasses(name);
  }

  /**
   * The two rules disagree exactly when neither the extension nor an image
   * or text/ type decides, and "json" in the type differs from "the type is
   * application/json or the extension is json".
   */
  lemma DispatchesDiffer(name: string, mime: string)
    ensures Dispatch(name, mime) != LegacyDispatch(name, mime) <==>
      var ext := Extension(name);
      && ext != "npy" && ext != "pcd"
      && !StartsWith(mime, "image/") && !StartsWith(mime, "text/")
      && Contains(mime, "json") != (mime == "application/json" || ext == "json")
  {
    if mime == "application/json" {
      ContainsAt(mime, "json", 12);
    }
  }

  /** A JSON variant type is text for main.py and raw bytes for test_api.py. */
  lemma JsonVariantDiffers(stem: string)
    ensures Dispatch(stem + ".bin", "application/ld+json") == Text
    ensures LegacyDispatch(stem + ".bin", "application/ld+json") == HexDump
  {
    var mime := "application/ld+json";
    ExtensionAfterLastDot(stem, "bin");
    assert stem + "." + "bin" == stem + ".bin";
    assert Lower("bin") == "bin";
    assert mime == "application/ld+" + "json";
    ContainsAt(mime, "json", 15);
    FirstCharDiffers(mime, "image/");
    FirstCharDiffers(mime, "text/");
  }
}

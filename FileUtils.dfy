/** The file-name logic of app/utils/file.py: the image-extension check and
    the stored name and URL `upload_file` builds. The uuid4 hex is a
    parameter; writing and removing files is not part of this model. A
    missing filename is `None`. */
module FileUtils {
  import opened Base

  const IMAGE_EXTENSIONS := ["jpg", "jpeg", "png", "gif"]

  /** The detail of both 400 responses: the message followed by the Python
      `repr` of the extension list. */
  const INVALID_EXTENSION_DETAIL := "invalid image extension. enable extension: ['jpg', 'jpeg', 'png', 'gif']"

  /** `file.filename and "." in file.filename`: a non-empty name with a dot. */
  predicate HasDot(filename: Option<string>)
  {
    filename.Some? && '.' in filename.value
  }

  /** `name.rsplit(".", 1)`: the text before and after the last dot. */
  function RSplitDot(name: string): (r: (string, string))
    requires '.' in name
    ensures r.0 + "." + r.1 == name
    ensures '.' !in r.1
  {
    var i := LastIndexOf(name, '.').value;
    assert name == name[..i] + "." + name[i + 1..];
    (name[..i], name[i + 1..])
  }

  /** Splitting at a dot that no later character repeats gives back the two
      sides exactly. */
  lemma {:induction false} RSplitDotOf(stem: string, ext: string)
    requires '.' !in ext
    ensures RSplitDot(stem + "." + ext) == (stem, ext)
  {
    var s := stem + "." + ext;
    var i := LastIndexOf(s, '.').value;
    assert s[|stem|] == '.';
    assert s[..i] == stem;
    assert s[i + 1..] == ext;
  }

  /** `ext.lower() in IMAGE_EXTENSIONS`. */
  predicate IsImageExtension(ext: string)
  {
    Lower(ext) in IMAGE_EXTENSIONS
  }

  /** `validate_image_extension`: the extension after the last dot, in its
      original case, when its lower-case form is whitelisted; otherwise 400.
      A missing name, an empty name and a name with no dot are all 400. */
  function ValidateImageExtension(filename: Option<string>): (r: Outcome<string>)
    ensures r.Returns? <==> HasDot(filename) && IsImageExtension(RSplitDot(filename.value).1)
    ensures r.Returns? ==> filename.value == RSplitDot(filename.value).0 + "." + r.value && '.' !in r.value
    ensures r.Raises? ==> r.exc == HttpException(400, INVALID_EXTENSION_DETAIL)
  {
    if !HasDot(filename) then Raises(HttpException(400, INVALID_EXTENSION_DETAIL))
    else
      var ext := RSplitDot(filename.value).1;
      if !IsImageExtension(ext) then Raises(HttpException(400, INVALID_EXTENSION_DETAIL))
      else Returns(ext)
  }

  /** The stem and extension `upload_file` works with: split at the last dot
      when there is one, otherwise the whole name (or "unknown" when it is
      missing or empty) and no extension. */
  function SplitName(filename: Option<string>): (r: (string, string))
    ensures HasDot(filename) ==> r.0 + "." + r.1 == filename.value && '.' !in r.1
    ensures !HasDot(filename) ==> r.1 == ""
    ensures !HasDot(filename) && filename.Some? && filename.value != "" ==> r.0 == filename.value
    ensures filename.None? || filename == Some("") ==> r.0 == "unknown"
  {
    if HasDot(filename) then RSplitDot(filename.value)
    else if filename.None? || filename.value == "" then ("unknown", "")
    else (filename.value, "")
  }

  /** `{filename}_{hex}.{ext}`, or `{filename}_{hex}` when the extension is
      empty. */
  function UniqueName(filename: Option<string>, hex: string): string
  {
    var (stem, ext) := SplitName(filename);
    if ext != "" then stem + "_" + hex + "." + ext else stem + "_" + hex
  }

  /** The URL `upload_file` returns: `{upload_dir}/{unique_filename}`. */
  function UploadUrl(filename: Option<string>, uploadDir: string, hex: string): (url: string)
    ensures url == uploadDir + "/" + UniqueName(filename, hex)
    ensures StartsWith(url, uploadDir + "/")
  {
    var url := uploadDir + "/" + UniqueName(filename, hex);
    assert url[..|uploadDir + "/"|] == uploadDir + "/";
    url
  }

  /** A stored name keeps the original's stem and non-empty extension:
      splitting it again gives the stem with the hex attached, and the same
      extension (uuid4 hex has no dot). */
  lemma UniqueNameKeepsExtension(filename: Option<string>, hex: string)
    requires '.' !in hex
    requires SplitName(filename).1 != ""
    ensures HasDot(Some(UniqueName(filename, hex)))
    ensures SplitName(Some(UniqueName(filename, hex))) ==
            (SplitName(filename).0 + "_" + hex, SplitName(filename).1)
  {
    var (stem, ext) := SplitName(filename);
    assert UniqueName(filename, hex) == (stem + "_" + hex) + "." + ext;
    RSplitDotOf(stem + "_" + hex, ext);
  }

  /** A name with no extension (a missing name, a name without a dot, or one
      ending in a dot such as "a.") is stored without a dot, as long as its
      stem has none. */
  lemma NoExtensionNoDot(filename: Option<string>, hex: string)
    requires '.' !in hex
    requires SplitName(filename).1 == "" && '.' !in SplitName(filename).0
    ensures !HasDot(Some(UniqueName(filename, hex)))
    ensures UniqueName(filename, hex) == SplitName(filename).0 + "_" + hex
  {
  }

  /** An image the extension check accepts is stored under a name with the very
      extension that check returned. */
  lemma AcceptedImageKeepsExtension(filename: Option<string>, hex: string)
    requires '.' !in hex
    requires ValidateImageExtension(filename).Returns?
    ensures SplitName(Some(UniqueName(filename, hex))).1 == ValidateImageExtension(filename).value
  {
    var ext := ValidateImageExtension(filename).value;
    assert ext != "" by {
      assert Lower(ext) in IMAGE_EXTENSIONS;
    }
    UniqueNameKeepsExtension(filename, hex);
  }

  /** Whatever precedes the last dot, the check looks only at what follows
      it: that text is returned as given when its lower-case form is
      whitelisted, and refused otherwise. */
  lemma ValidateAfterLastDot(stem: string, ext: string)
    requires '.' !in ext
    ensures ValidateImageExtension(Some(stem + "." + ext)) ==
            if Lower(ext) in IMAGE_EXTENSIONS then Returns(ext)
            else Raises(HttpException(400, INVALID_EXTENSION_DETAIL))
  {
    var name := stem + "." + ext;
    assert name[|stem|] == '.';
    RSplitDotOf(stem, ext);
  }

  /** The extension is compared in lower case but returned as given. */
  lemma UpperCaseExtensionAccepted()
    ensures ValidateImageExtension(Some("photo.JPG")) == Returns("JPG")
  {
    assert "photo" + "." + "JPG" == "photo.JPG";
    ValidateAfterLastDot("photo", "JPG");
    assert Lower("JPG") == "jpg";
  }

  /** Only the text after the last dot counts: an earlier image extension
      neither helps nor hurts. */
  lemma LastDotCounts()
    ensures ValidateImageExtension(Some("a.exe.gif")) == Returns("gif")
    ensures ValidateImageExtension(Some("pic.png.exe")).Raises?
  {
    assert "a.exe" + "." + "gif" == "a.exe.gif";
    ValidateAfterLastDot("a.exe", "gif");
    assert Lower("gif") == "gif";
    assert "pic.png" + "." + "exe" == "pic.png.exe";
    ValidateAfterLastDot("pic.png", "exe");
    var l := Lower("exe");
    assert |l| == 3 && l[0] == 'e';
    assert l !in IMAGE_EXTENSIONS;
  }

  /** A trailing dot leaves an empty extension, which is refused, as is a
      name with no dot at all. */
  lemma NoExtensionRefused()
    ensures ValidateImageExtension(Some("a.")).Raises?
    ensures ValidateImageExtension(Some("png")).Raises?
  {
    RSplitDotOf("a", "");
    assert "png"[0] != '.' && "png"[1] != '.' && "png"[2] != '.';
  }

  /** "a." is stored without a dot; a missing name becomes "unknown". */
  lemma UniqueNameExamples(hex: string)
    ensures UniqueName(Some("a."), hex) == "a_" + hex
    ensures UniqueName(None, hex) == "unknown_" + hex
  {
    assert "a" + "." + "" == "a.";
    RSplitDotOf("a", "");
    assert SplitName(Some("a.")) == ("a", "");
  }
}

/** The multer `fileFilter` that tweet_route.js and user_route.js both install, and the file
    names their disk storage gives to accepted files. */
module UploadFilter {
  import opened Common
  import opened Text

  /** An uploaded file. `suffix` stands for `Date.now() + '-' + Math.round(Math.random() * 1E9)`,
      which the storage puts into the stored file name. */
  datatype Upload = Upload(mimetype: string, originalName: string, suffix: string)

  /** `/jpeg|jpg|png/.test(s)`: unanchored, so any occurrence of one of the three words passes. */
  predicate ImageType(s: string)
  {
    Contains(s, "jpeg") || Contains(s, "jpg") || Contains(s, "png")
  }

  /** The filter: the MIME type as sent, and the lower-cased extension of the original name. */
  predicate Accepts(f: Upload)
  {
    ImageType(f.mimetype) && ImageType(LowerAscii(ExtName(f.originalName)))
  }

  /** `${prefix}-${uniqueSuffix}${path.extname(file.originalname)}`: the extension keeps its case. */
  function StoredName(prefix: string, f: Upload): string
  {
    prefix + "-" + f.suffix + ExtName(f.originalName)
  }

  /** A name without an extension, such as a dotfile ".png", is refused whatever its MIME type. */
  lemma NoExtensionRefused(f: Upload)
    requires forall j :: 0 < j < |f.originalName| ==> f.originalName[j] != '.'
    ensures !Accepts(f)
  {
    assert LowerAscii(ExtName(f.originalName)) == "";
  }

  /** The MIME type is matched as sent, without lower-casing: "IMAGE/PNG" is refused. */
  lemma MimeWithoutJOrPRefused(f: Upload)
    requires forall i :: 0 <= i < |f.mimetype| ==> f.mimetype[i] != 'j' && f.mimetype[i] != 'p'
    ensures !Accepts(f)
  {
    NoImageWord(f.mimetype);
  }

  /** A string without a 'j' or a 'p' contains none of the three words. */
  lemma NoImageWord(m: string)
    requires forall i :: 0 <= i < |m| ==> m[i] != 'j' && m[i] != 'p'
    ensures !ImageType(m)
  {
    forall pat, i: nat | pat in {"jpeg", "jpg", "png"} ensures !OccursAt(m, pat, i) {
      if i + |pat| <= |m| {
        assert m[i..i + |pat|][0] == m[i];
      }
    }
  }

  /** The extension is lower-cased before the test, and the MIME type need only contain "png"
      somewhere: "photo.PNG" sent as any type mentioning "png" is accepted. */
  lemma UpperCaseExtensionAccepted(f: Upload, stem: string)
    requires stem != [] && forall j :: 0 <= j < |stem| ==> stem[j] != '.'
    requires f.originalName == stem + ".PNG"
    requires Contains(f.mimetype, "png")
    ensures Accepts(f)
  {
    UpperPngExtension(stem);
    LowerPng();
  }

  /** ".PNG" lower-cases to a string the extension test accepts. */
  lemma LowerPng()
    ensures LowerAscii(".PNG") == ".png" && ImageType(".png")
  {
    var e := LowerAscii(".PNG");
    assert e[0] == '.' && e[1] == 'p' && e[2] == 'n' && e[3] == 'g';
    assert ".png"[1..4] == "png";
    ContainsAt(".png", "png", 1);
  }

  /** The extension of `stem + ".PNG"`, for a stem without a dot. */
  lemma UpperPngExtension(stem: string)
    requires stem != [] && forall j :: 0 <= j < |stem| ==> stem[j] != '.'
    ensures ExtName(stem + ".PNG") == ".PNG"
  {
    var name := stem + ".PNG";
    assert name[|stem|] == '.';
    assert LastDot(name) == Some(|stem|);
  }
}

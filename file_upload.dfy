/** The upload middleware: the extension filter multer consults before
    storing a file, the size limit, and the session default for the list of
    upload ids.

    `path.extname` is modelled after Node's POSIX implementation: the
    extension is taken from the last path component (trailing slashes
    ignored) and runs from its last '.', except when that dot starts the
    component or the component is "..". */
module FileUpload {
  import opened Prelude
  import opened Text

  /** The largest accepted upload, in bytes. */
  const MaxFileSize := 10 * 1024 * 1024

  const AllowedTypes := [".pdf", ".doc", ".docx", ".txt"]

  const InvalidTypeMessage := "Invalid file type. Only PDF, DOC, DOCX, and TXT files are allowed."

  /** What `fileFilter` passes to its callback: `cb(null, true)` or
      `cb(new Error(message))`. */
  datatype Verdict = Accept | Reject(message: string)

  /** `s` without its trailing slashes. */
  function TrimTrailingSlashes(s: string): (r: string)
    ensures |r| <= |s| && r == s[..|r|]
    ensures r == [] || r[|r| - 1] != '/'
    ensures forall i :: |r| <= i < |s| ==> s[i] == '/'
  {
    if s != [] && s[|s| - 1] == '/' then TrimTrailingSlashes(s[..|s| - 1]) else s
  }

  /** The part of `s` after its last slash (all of `s` when it has none). */
  function AfterLastSlash(s: string): string
  {
    if s == [] || s[|s| - 1] == '/' then []
    else AfterLastSlash(s[..|s| - 1]) + [s[|s| - 1]]
  }

  /** The part after the last slash is a slash-free suffix, preceded by a
      slash whenever it is not the whole string. */
  lemma {:induction false} AfterLastSlashShape(s: string)
    ensures var r := AfterLastSlash(s);
      && |r| <= |s| && r == s[|s| - |r|..]
      && '/' !in r
      && (|r| < |s| ==> s[|s| - |r| - 1] == '/')
    decreases |s|
  {
    if s != [] && s[|s| - 1] != '/' {
      AfterLastSlashShape(s[..|s| - 1]);
    }
  }

  /** The last path component of `name`. */
  function BaseName(name: string): string
  {
    AfterLastSlash(TrimTrailingSlashes(name))
  }

  /** The index of the last '.' in `s`, if any. */
  function LastDot(s: string): (r: Option<nat>)
    ensures r.None? <==> '.' !in s
    ensures r.Some? ==> r.value < |s| && s[r.value] == '.' && '.' !in s[r.value + 1..]
  {
    if s == [] then None
    else if s[|s| - 1] == '.' then Some(|s| - 1)
    else LastDot(s[..|s| - 1])
  }

  /** The extension of a path component: from its last dot on, or nothing
      when it has no dot, when the dot starts it, or when it is "..". */
  function Extension(base: string): string
  {
    match LastDot(base)
    case None => ""
    case Some(d) => if d == 0 || (d == 1 && |base| == 2 && base[0] == '.') then "" else base[d..]
  }

  /** `path.extname(name)` */
  function Extname(name: string): string
  {
    Extension(BaseName(name))
  }

  /** The `fileFilter` option of the multer instance. */
  function FileFilter(originalName: string): (v: Verdict)
    ensures v.Accept? || v == Reject(InvalidTypeMessage)
  {
    if ToLower(Extname(originalName)) in AllowedTypes then Accept else Reject(InvalidTypeMessage)
  }

  /** A name ends, ignoring case, with the allowed extension `e`, with at least
      one character of the component in front of it. */
  predicate EndsWithType(base: string, e: string)
  {
    |e| < |base| && ToLower(base[|base| - |e|..]) == e
  }

  /** Every allowed extension is a dot followed by dot-free letters. */
  lemma AllowedTypesShape(e: string)
    requires e in AllowedTypes
    ensures 4 <= |e| && e[0] == '.' && '.' !in e[1..]
  {
  }

  /** If `s[k]` is the last dot of `s`, `LastDot` finds it. */
  lemma LastDotAt(s: string, k: nat)
    requires k < |s| && s[k] == '.' && '.' !in s[k + 1..]
    ensures LastDot(s) == Some(k)
  {
    assert s[k] in s;
  }

  /** `fileFilter` accepts a file exactly when the last component of its
      original name ends, ignoring case, with one of the allowed extensions
      and has something in front of it. */
  lemma FileFilterAccepts(name: string)
    ensures FileFilter(name).Accept? <==> exists e :: e in AllowedTypes && EndsWithType(BaseName(name), e)
  {
    if FileFilter(name).Accept? {
      var e := ToLower(Extname(name));
      AllowedTypesShape(e);
      AcceptedEndsWithType(BaseName(name), e);
    }
    if e :| e in AllowedTypes && EndsWithType(BaseName(name), e) {
      AllowedTypesShape(e);
      EndsWithTypeAccepted(BaseName(name), e);
    }
  }

  lemma AcceptedEndsWithType(base: string, e: string)
    requires e != [] && ToLower(Extension(base)) == e
    ensures EndsWithType(base, e)
  {
    ExtensionIsSuffix(base);
  }

  /** A non-empty extension is a proper suffix of the component. */
  lemma ExtensionIsSuffix(base: string)
    ensures var ext := Extension(base);
      ext == [] || (|ext| < |base| && ext == base[|base| - |ext|..])
  {
  }

  /** An allowed extension at the end of a component starts at its last dot. */
  lemma TypeSuffixIsExtension(base: string, e: string)
    requires 4 <= |e| && e[0] == '.' && '.' !in e[1..]
    requires EndsWithType(base, e)
    ensures LastDot(base) == Some(|base| - |e|)
  {
    var k := |base| - |e|;
    assert LowerChar(base[k]) == e[0];
    LowerCharKeepsSeparators(base[k]);
    forall i | k + 1 <= i < |base|
      ensures base[i] != '.'
    {
      assert LowerChar(base[i]) == e[i - k];
      assert e[i - k] in e[1..];
      LowerCharKeepsSeparators(base[i]);
    }
    LastDotAt(base, k);
  }

  lemma EndsWithTypeAccepted(base: string, e: string)
    requires 4 <= |e| && e[0] == '.' && '.' !in e[1..]
    requires EndsWithType(base, e)
    ensures ToLower(Extension(base)) == e
  {
    TypeSuffixIsExtension(base, e);
  }

  /** A name without a slash is its own last component. */
  lemma PlainBaseName(name: string)
    requires '/' !in name
    ensures BaseName(name) == name
  {
    if name != [] {
      assert name[|name| - 1] in name;
    }
    AfterLastSlashShape(name);
  }

  lemma LowerIdempotent(s: string)
    ensures ToLower(ToLower(s)) == ToLower(s)
  {
  }

  lemma LowerSlice(s: string, i: nat, j: nat)
    requires i <= j <= |s|
    ensures ToLower(s[i..j]) == ToLower(s)[i..j]
  {
  }

  /** Lower-casing commutes with taking the last component. */
  lemma {:induction false} BaseNameLower(name: string)
    ensures BaseName(ToLower(name)) == ToLower(BaseName(name))
  {
    TrimLower(name);
    AfterLastSlashLower(TrimTrailingSlashes(name));
  }

  lemma {:induction false} TrimLower(s: string)
    ensures TrimTrailingSlashes(ToLower(s)) == ToLower(TrimTrailingSlashes(s))
    decreases |s|
  {
    if s != [] {
      LowerCharKeepsSeparators(s[|s| - 1]);
      LowerSlice(s, 0, |s| - 1);
      TrimLower(s[..|s| - 1]);
    }
  }

  lemma {:induction false} AfterLastSlashLower(s: string)
    ensures AfterLastSlash(ToLower(s)) == ToLower(AfterLastSlash(s))
    decreases |s|
  {
    if s != [] {
      var n := |s| - 1;
      LowerCharKeepsSeparators(s[n]);
      if s[n] != '/' {
        AfterLastSlashLower(s[..n]);
        AfterLastSlashStep(s);
      } else {
        assert ToLower(s)[n] == '/';
      }
    }
  }

  /** One step of the induction above: the last character is not a slash and
      the claim holds without it. */
  lemma AfterLastSlashStep(s: string)
    requires s != [] && s[|s| - 1] != '/' && LowerChar(s[|s| - 1]) != '/'
    requires AfterLastSlash(ToLower(s[..|s| - 1])) == ToLower(AfterLastSlash(s[..|s| - 1]))
    ensures AfterLastSlash(ToLower(s)) == ToLower(AfterLastSlash(s))
  {
    var n := |s| - 1;
    var p, c := s[..n], s[n];
    assert s == p + [c];
    LowerAppend(p, [c]);
    assert ToLower([c]) == [LowerChar(c)];
    AfterLastSlashSnoc(ToLower(p), LowerChar(c));
    AfterLastSlashSnoc(p, c);
    LowerAppend(AfterLastSlash(p), [c]);
  }

  lemma AfterLastSlashSnoc(p: string, c: char)
    requires c != '/'
    ensures AfterLastSlash(p + [c]) == AfterLastSlash(p) + [c]
  {
    assert (p + [c])[..|p|] == p;
  }

  lemma LowerAppend(a: string, b: string)
    ensures ToLower(a + b) == ToLower(a) + ToLower(b)
  {
  }

  lemma {:induction false} LastDotLower(s: string)
    ensures LastDot(ToLower(s)) == LastDot(s)
    decreases |s|
  {
    if s != [] {
      LowerCharKeepsSeparators(s[|s| - 1]);
      LowerSlice(s, 0, |s| - 1);
      LastDotLower(s[..|s| - 1]);
    }
  }

  /** Lower-casing commutes with `path.extname`. */
  lemma ExtnameLower(name: string)
    ensures Extname(ToLower(name)) == ToLower(Extname(name))
  {
    BaseNameLower(name);
    ExtensionLower(BaseName(name));
  }

  lemma ExtensionLower(base: string)
    ensures Extension(ToLower(base)) == ToLower(Extension(base))
  {
    LastDotLower(base);
    if |base| == 2 {
      LowerCharKeepsSeparators(base[0]);
    }
    if LastDot(base).Some? {
      LowerSlice(base, LastDot(base).value, |base|);
    }
  }

  /** The filter ignores case: a name and its lower-cased form get the same
      verdict. */
  lemma FileFilterIgnoresCase(name: string)
    ensures FileFilter(ToLower(name)) == FileFilter(name)
  {
    ExtnameLower(name);
    LowerIdempotent(Extname(name));
  }

  /** "Report.PDF" is accepted, whatever the case of its extension. */
  lemma UpperCaseAccepted()
    ensures FileFilter("Report.PDF") == Accept
  {
    var name := "Report.PDF";
    assert name[6..] == ".PDF" && name[7..] == "PDF";
    ExtnameOfPlainName(name, 6);
    LowerPdf();
  }

  /** For a name without a slash whose last dot is at `k > 0`, the extension
      is the part from that dot on. */
  lemma ExtnameOfPlainName(name: string, k: nat)
    requires '/' !in name && 0 < k && k + 1 < |name| && name[k] == '.' && '.' !in name[k + 1..]
    ensures Extname(name) == name[k..]
  {
    PlainBaseName(name);
    LastDotAt(name, k);
  }

  lemma LowerPdf()
    ensures ToLower(".PDF") == ".pdf"
  {
    assert LowerChar('P') == 'p' && LowerChar('D') == 'd' && LowerChar('F') == 'f';
  }

  lemma LowerExe()
    ensures ToLower(".exe") == ".exe"
  {
  }

  /** ".pdf" names a hidden file without extension and is rejected. */
  lemma HiddenFileRejected()
    ensures FileFilter(".pdf") == Reject(InvalidTypeMessage)
  {
    PlainBaseName(".pdf");
    LastDotAt(".pdf", 0);
  }

  /** Only the last extension counts: "notes.pdf.exe" is rejected. */
  lemma LastExtensionCounts()
    ensures FileFilter("notes.pdf.exe") == Reject(InvalidTypeMessage)
  {
    var name := "notes.pdf.exe";
    assert name[9..] == ".exe" && name[10..] == "exe";
    ExtnameOfPlainName(name, 9);
    LowerExe();
    assert ToLower(Extname(name)) == ".exe";
    ExeNotAllowed();
  }

  lemma ExeNotAllowed()
    ensures ".exe" !in AllowedTypes
  {
    assert ".exe"[1] != ".pdf"[1] && ".exe"[1] != ".doc"[1] && ".exe"[1] != ".txt"[1];
  }

  /** A name without a dot has no extension and is rejected. */
  lemma NoDotRejected(name: string)
    requires '/' !in name && '.' !in name
    ensures FileFilter(name) == Reject(InvalidTypeMessage)
  {
    assert Extname(name) == "" by {
      PlainBaseName(name);
    }
    EmptyNotAllowed();
  }

  lemma EmptyNotAllowed()
    ensures ToLower("") !in AllowedTypes
  {
  }

  /** "readme" has no extension and is rejected. */
  lemma NoExtensionRejected()
    ensures FileFilter("readme") == Reject(InvalidTypeMessage)
  {
    ReadmeIsPlain();
    NoDotRejected("readme");
  }

  lemma ReadmeIsPlain()
    ensures '/' !in "readme" && '.' !in "readme"
  {
  }

  /** The error multer reports for a file with name `originalName` and size
      `size` bytes under this configuration, if any: the filter is consulted
      first, then the size limit, whose breach multer reports with the code
      "LIMIT_FILE_SIZE". */
  function UploadError(originalName: string, size: nat): (r: Option<AppError>)
    ensures r.None? <==> FileFilter(originalName).Accept? && size <= MaxFileSize
    ensures FileFilter(originalName).Reject? ==> r == Some(PlainError(Some(InvalidTypeMessage)))
    ensures FileFilter(originalName).Accept? && size > MaxFileSize ==> r.value.MulterError? && r.value.code == "LIMIT_FILE_SIZE"
  {
    match FileFilter(originalName)
    case Reject(message) => Some(PlainError(Some(message)))
    case Accept => if size > MaxFileSize then Some(MulterError("LIMIT_FILE_SIZE", "File too large")) else None
  }

  /** The session store of a request: the list of upload ids, when one has
      been set, and the other session fields. */
  datatype Session = Session(uploadIds: Option<seq<string>>, fields: map<string, string>)

  /** `associateUploadsWithSession`: gives the session an empty list of
      upload ids when it has none; an existing list, even an empty one, is
      kept. */
  function AssociateUploadsWithSession(session: Session): (r: Session)
    ensures r.uploadIds.Some?
    ensures session.uploadIds.Some? ==> r == session
    ensures session.uploadIds.None? ==> r == session.(uploadIds := Some([]))
  {
    session.(uploadIds := Some(if session.uploadIds.Some? then session.uploadIds.value else []))
  }

  /** Running the middleware again changes nothing. */
  lemma AssociateIdempotent(session: Session)
    ensures AssociateUploadsWithSession(AssociateUploadsWithSession(session)) == AssociateUploadsWithSession(session)
  {
  }
}

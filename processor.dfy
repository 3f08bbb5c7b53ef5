/**
 * `process_file`: infer the timestamp from the file's base name, then dispatch on the
 * lower-cased extension to one of the writers. A `ValueError` raised by the inference is
 * not caught here; it reaches the tally as the worker's exception.
 */
module Processor {
  import opened Wrappers
  import opened Text
  import opened Calendar
  import opened Inference
  import opened Writers

  const NoDateStatus: string := "\U{26A0}\U{FE0F} No valid date in filename"
  const UnsupportedStatus: string := "\U{274C} Unsupported file type"

  /** `os.path.basename` on a POSIX path: everything after the last `/`. */
  function Basename(path: string): (b: string)
    ensures EndsWith(path, b)
    ensures forall j :: 0 <= j < |b| ==> b[j] != '/'
    ensures |b| == |path| || path[|path| - |b| - 1] == '/'
  {
    if path == [] || path[|path| - 1] == '/' then []
    else
      var b0 := Basename(path[..|path| - 1]);
      BasenameGrows(path, b0);
      b0 + [path[|path| - 1]]
  }

  /** One more character that is not `/` extends the base name of the path without it. */
  lemma BasenameGrows(path: string, b0: string)
    requires path != [] && path[|path| - 1] != '/'
    requires var init := path[..|path| - 1];
      EndsWith(init, b0) && (forall j :: 0 <= j < |b0| ==> b0[j] != '/')
      && (|b0| == |init| || init[|init| - |b0| - 1] == '/')
    ensures var b := b0 + [path[|path| - 1]];
      EndsWith(path, b) && (forall j :: 0 <= j < |b| ==> b[j] != '/')
      && (|b| == |path| || path[|path| - |b| - 1] == '/')
  {
    var init, last := path[..|path| - 1], path[|path| - 1];
    var b := b0 + [last];
    assert path == init + [last];
    assert path[|path| - |b|..] == init[|init| - |b0|..] + [last];
    assert |b0| < |init| ==> path[|path| - |b| - 1] == init[|init| - |b0| - 1];
  }

  /** Which writer the extension selects. */
  datatype Kind = Jpeg | Png | Other

  /** The last `|ext|` characters of `path` are `ext` once A-Z are read as a-z. */
  predicate HasExtension(path: string, ext: string) {
    |ext| <= |path| && forall j :: |path| - |ext| <= j < |path| ==> LowerChar(path[j]) == ext[j - (|path| - |ext|)]
  }

  /** `file_path.lower().endswith(...)`: the extension, compared without regard to ASCII case. */
  function KindOf(path: string): (k: Kind)
    ensures k == Jpeg <==> HasExtension(path, ".jpg") || HasExtension(path, ".jpeg")
    ensures k == Png <==> !HasExtension(path, ".jpg") && !HasExtension(path, ".jpeg") && HasExtension(path, ".png")
  {
    var lower := Lower(path);
    LowerEndsWith(path, ".jpg");
    LowerEndsWith(path, ".jpeg");
    LowerEndsWith(path, ".png");
    if EndsWith(lower, ".jpg") || EndsWith(lower, ".jpeg") then Jpeg
    else if EndsWith(lower, ".png") then Png
    else Other
  }

  lemma LowerEndsWith(path: string, ext: string)
    ensures EndsWith(Lower(path), ext) <==> HasExtension(path, ext)
  {
    var lower := Lower(path);
    if |ext| <= |path| {
      var k := |path| - |ext|;
      if EndsWith(lower, ext) {
        forall j | k <= j < |path|
          ensures LowerChar(path[j]) == ext[j - k]
        {
          assert lower[k + (j - k)] == ext[j - k];
        }
      }
      if HasExtension(path, ext) {
        forall j | 0 <= j < |ext|
          ensures lower[k + j] == ext[j]
        {
          assert LowerChar(path[k + j]) == ext[(k + j) - k];
        }
      }
    }
  }

  /** What a worker's future yields: the returned pair, or the message of the exception it raised. */
  datatype Completion = Completed(rel: string, status: string) | Crashed(message: string)

  /** A worker's completion and the file as it is afterwards. */
  datatype Processed = Processed(completion: Completion, after: Image)

  /**
   * `process_file(file_path, folder_path)`, with `rel` standing for
   * `os.path.relpath(file_path, folder_path)` and `img` for the file's contents.
   */
  function ProcessFile(path: string, rel: string, img: Image): (r: Processed)
    ensures r.completion.Crashed? <==> ExtractDateFromTitle(Basename(path)).Raised?
    ensures r.completion.Crashed? ==> r == Processed(Crashed(ExtractDateFromTitle(Basename(path)).e.Message()), img)
    ensures r.completion.Completed? ==> r.completion.rel == rel
    ensures r.after != img ==> ExtractDateFromTitle(Basename(path)).Date? && KindOf(path) != Other
  {
    match ExtractDateFromTitle(Basename(path))
    case Raised(e) => Processed(Crashed(e.Message()), img)
    case NoDate => Processed(Completed(rel, NoDateStatus), img)
    case Date(t) =>
      match KindOf(path)
      case Jpeg =>
        var o := UpdateJpeg(img, t);
        Processed(Completed(rel, o.status.Text()), JpegAfter(img, o))
      case Png =>
        var o := UpdatePng(img, t);
        Processed(Completed(rel, o.status.Text()), PngAfter(img, o))
      case Other => Processed(Completed(rel, UnsupportedStatus), img)
  }

  /**
   * `"✅" in status or "🛠️" in status`: the status holds the check mark, or the hammer and
   * wrench followed by the emoji variation selector.
   */
  function IsSuccessStatus(status: string): (b: bool)
    ensures b <==> ('\U{2705}' in status
      || exists j :: 0 <= j && j + 1 < |status| && status[j] == '\U{1F6E0}' && status[j + 1] == '\U{FE0F}')
  {
    Contains(status, "\U{2705}") || Contains(status, "\U{1F6E0}\U{FE0F}")
  }

  // ---------------------------------------------------------------------------------
  // Dispatch
  // ---------------------------------------------------------------------------------

  /** With no date in the name, no writer runs: the file is untouched whatever it holds. */
  lemma NoDateWritesNothing(path: string, rel: string, img: Image)
    requires ExtractDateFromTitle(Basename(path)) == NoDate
    ensures ProcessFile(path, rel, img) == Processed(Completed(rel, NoDateStatus), img)
  {
  }

  /** With a date, a `.jpg` or `.jpeg` extension in any case selects the JPEG writer. */
  lemma JpegDispatch(path: string, rel: string, img: Image, t: Timestamp)
    requires ExtractDateFromTitle(Basename(path)) == Date(t)
    requires EndsWith(Lower(path), ".jpg") || EndsWith(Lower(path), ".jpeg")
    ensures ProcessFile(path, rel, img)
      == Processed(Completed(rel, UpdateJpeg(img, t).status.Text()), JpegAfter(img, UpdateJpeg(img, t)))
  {
    assert KindOf(path) == Jpeg;
  }

  /** Otherwise a `.png` extension in any case selects the PNG writer. */
  lemma PngDispatch(path: string, rel: string, img: Image, t: Timestamp)
    requires ExtractDateFromTitle(Basename(path)) == Date(t)
    requires !EndsWith(Lower(path), ".jpg") && !EndsWith(Lower(path), ".jpeg") && EndsWith(Lower(path), ".png")
    ensures ProcessFile(path, rel, img)
      == Processed(Completed(rel, UpdatePng(img, t).status.Text()), PngAfter(img, UpdatePng(img, t)))
  {
    assert KindOf(path) == Png;
  }

  /** Any other extension is reported unsupported and nothing is written. */
  lemma OtherDispatch(path: string, rel: string, img: Image, t: Timestamp)
    requires ExtractDateFromTitle(Basename(path)) == Date(t)
    requires !EndsWith(Lower(path), ".jpg") && !EndsWith(Lower(path), ".jpeg") && !EndsWith(Lower(path), ".png")
    ensures ProcessFile(path, rel, img) == Processed(Completed(rel, UnsupportedStatus), img)
  {
    assert KindOf(path) == Other;
  }

  /** The extension test ignores ASCII case. */
  lemma {:induction false} KindIgnoresCase(path: string)
    ensures KindOf(Lower(path)) == KindOf(path)
  {
    LowerTwice(path);
  }

  lemma LowerTwice(s: string)
    ensures Lower(Lower(s)) == Lower(s)
  {
    assert forall j :: 0 <= j < |s| ==> Lower(Lower(s))[j] == Lower(s)[j];
  }

  lemma UpperJpgExample()
    ensures KindOf("/photos/PXL_20230615_101500.JPG") == Jpeg
  {
    assert Lower("/photos/PXL_20230615_101500.JPG")[27..] == ".jpg";
  }

  lemma JpegExample()
    ensures KindOf("a/b.jpeg") == Jpeg
  {
    assert Lower("a/b.jpeg")[3..] == ".jpeg";
  }

  lemma MixedPngExample()
    ensures KindOf("shot.Png") == Png
  {
    assert Lower("shot.Png")[4..] == ".png";
  }

  lemma VideoExample()
    ensures KindOf("clip.mp4") == Other
  {
    assert Lower("clip.mp4")[4..] == ".mp4" && Lower("clip.mp4")[3..] == "p.mp4";
  }

  /** Only the final path component is searched: a stamp in a directory name does not count. */
  lemma {:induction false} BasenameOfJoin(dir: string, name: string)
    requires forall j :: 0 <= j < |name| ==> name[j] != '/'
    ensures Basename(dir + "/" + name) == name
  {
    if name != [] {
      var path := dir + "/" + name;
      assert path[..|path| - 1] == dir + "/" + name[..|name| - 1];
      BasenameOfJoin(dir, name[..|name| - 1]);
      assert name[..|name| - 1] + [name[|name| - 1]] == name;
    }
  }

  // ---------------------------------------------------------------------------------
  // Classification of the statuses
  // ---------------------------------------------------------------------------------

  const FailedPrefix: string := "\U{274C} Failed: "

  /** No character of `s` is the check mark or the hammer and wrench. */
  predicate Unmarked(s: string) {
    forall j :: 0 <= j < |s| ==> s[j] != '\U{2705}' && s[j] != '\U{1F6E0}'
  }

  lemma UnmarkedAppend(a: string, b: string)
    requires Unmarked(a) && Unmarked(b)
    ensures Unmarked(a + b)
  {
    forall j | 0 <= j < |a + b|
      ensures (a + b)[j] != '\U{2705}' && (a + b)[j] != '\U{1F6E0}'
    {
      if j >= |a| {
        assert (a + b)[j] == b[j - |a|];
      }
    }
  }

  lemma PrefixHasNoMarker()
    ensures !Contains(FailedPrefix, "\U{2705}") && !Contains(FailedPrefix, "\U{1F6E0}\U{FE0F}")
  {
    assert Unmarked(FailedPrefix);
  }

  /**
   * A writer's status counts as a success when it matched or updated; a failure counts as
   * one exactly when the exception's message itself holds a marker.
   */
  lemma WriterStatusClassified(s: WriteStatus)
    ensures s.AlreadyMatches? || s.Updated? ==> IsSuccessStatus(s.Text())
    ensures s.Failed? ==> (IsSuccessStatus(s.Text()) <==> IsSuccessStatus(s.fault.Message()))
  {
    if s.AlreadyMatches? {
      assert OccursAt(s.Text(), "\U{2705}", 0);
    } else if s.Updated? {
      assert OccursAt(s.Text(), "\U{1F6E0}\U{FE0F}", 0);
    } else {
      PrefixHasNoMarker();
      ContainsAppend(FailedPrefix, s.fault.Message(), "\U{2705}");
      ContainsAppend(FailedPrefix, s.fault.Message(), "\U{1F6E0}\U{FE0F}");
    }
  }

  /** The two statuses `process_file` produces itself are failures. */
  lemma OwnStatusesFail()
    ensures !IsSuccessStatus(NoDateStatus) && !IsSuccessStatus(UnsupportedStatus)
  {
    NoDateStatusFails();
    UnsupportedStatusFails();
  }

  lemma NoDateStatusFails()
    ensures !IsSuccessStatus(NoDateStatus)
  {
    var a, b, c := "\U{26A0}\U{FE0F} No v", "alid date ", "in filename";
    assert Unmarked(a) && Unmarked(b) && Unmarked(c);
    UnmarkedAppend(a, b);
    UnmarkedAppend(a + b, c);
    assert NoDateStatus == a + b + c;
  }

  lemma UnsupportedStatusFails()
    ensures !IsSuccessStatus(UnsupportedStatus)
  {
    var d, e := "\U{274C} Unsup", "ported file type";
    assert Unmarked(d) && Unmarked(e);
    UnmarkedAppend(d, e);
    assert UnsupportedStatus == d + e;
  }

  /** The substring test lets a failure through when the library's message holds a check mark. */
  lemma MarkedFailureCountsAsSuccess()
    ensures IsSuccessStatus(Failed(Library("\U{2705} done")).Text())
  {
    WriterStatusClassified(Failed(Library("\U{2705} done")));
    assert OccursAt("\U{2705} done", "\U{2705}", 0);
  }

  // ---------------------------------------------------------------------------------
  // Rerunning
  // ---------------------------------------------------------------------------------

  /**
   * Once a file has been updated or found matching, processing it again finds it matching
   * and writes nothing.
   */
  lemma SecondRunMatches(path: string, rel: string, img: Image)
    requires ExtractDateFromTitle(Basename(path)).Date?
    requires ProcessFile(path, rel, img).completion in
      {Completed(rel, AlreadyMatches.Text()), Completed(rel, Updated.Text())}
    ensures var first := ProcessFile(path, rel, img);
      ProcessFile(path, rel, first.after)
        == Processed(Completed(rel, AlreadyMatches.Text()), first.after)
  {
    var t := ExtractDateFromTitle(Basename(path)).t;
    match KindOf(path)
    case Jpeg =>
      var o := UpdateJpeg(img, t);
      assert ProcessFile(path, rel, img) == Processed(Completed(rel, o.status.Text()), JpegAfter(img, o));
      StatusTextInjective(o.status);
      JpegRerun(path, rel, img, t);
    case Png =>
      var o := UpdatePng(img, t);
      assert ProcessFile(path, rel, img) == Processed(Completed(rel, o.status.Text()), PngAfter(img, o));
      StatusTextInjective(o.status);
      PngRerun(path, rel, img, t);
    case Other =>
  }

  lemma JpegRerun(path: string, rel: string, img: Image, t: Timestamp)
    requires ExtractDateFromTitle(Basename(path)) == Date(t) && KindOf(path) == Jpeg
    requires !UpdateJpeg(img, t).status.Failed?
    ensures var after := JpegAfter(img, UpdateJpeg(img, t));
      ProcessFile(path, rel, after) == Processed(Completed(rel, AlreadyMatches.Text()), after)
  {
    JpegSecondRunMatches(img, t);
  }

  lemma PngRerun(path: string, rel: string, img: Image, t: Timestamp)
    requires ExtractDateFromTitle(Basename(path)) == Date(t) && KindOf(path) == Png
    requires !UpdatePng(img, t).status.Failed?
    ensures var after := PngAfter(img, UpdatePng(img, t));
      ProcessFile(path, rel, after) == Processed(Completed(rel, AlreadyMatches.Text()), after)
  {
    PngSecondRunMatches(img, t);
  }

  /** A failure's text is neither of the other two statuses. */
  lemma StatusTextInjective(s: WriteStatus)
    ensures s.Text() == AlreadyMatches.Text() ==> s.AlreadyMatches?
    ensures s.Text() == Updated.Text() ==> s.Updated?
  {
    if s.Failed? {
      assert s.Text()[0] == '\U{274C}';
    }
  }
}

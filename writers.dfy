/**
 * The two metadata writers, `update_metadata_jpeg` and `update_metadata_png`. The image
 * libraries are abstracted: an `Image` carries what loading its metadata yields (the EXIF
 * IFD as a tag-to-bytes map, or the PNG text chunks as a key-to-string map, or the message
 * of the exception the load raised) and whether saving it would raise. A writer decides
 * between leaving the file alone, rewriting it, and reporting a failure, and hands back
 * the metadata it saved, if any.
 */
module Writers {
  import opened Wrappers
  import opened Text
  import opened Calendar
  import opened Formats

  newtype byte = x: int | 0 <= x < 256

  /** `exif_dict["Exif"]`: EXIF tag number to raw value. */
  type Exif = map<nat, seq<byte>>

  /** `piexif.ExifIFD.DateTimeOriginal` and `piexif.ExifIFD.DateTimeDigitized`. */
  const DateTimeOriginal: nat := 36867
  const DateTimeDigitized: nat := 36868

  /** `image.info` of a PNG file: its text chunks. */
  type TextChunks = map<string, string>

  const CreationTime: string := "Creation Time"

  /**
   * One file as the libraries see it: the outcome of reading its EXIF IFD
   * (`piexif.load`), the outcome of reading its PNG text chunks (`Image.open(...).info`),
   * and the message of the exception `piexif.dump` / `Image.open` / `image.save` raise
   * when the file is rewritten, if they do.
   */
  datatype Image = Image(exif: Result<Exif, string>, text: Result<TextChunks, string>, saveFault: Option<string>)

  // ---------------------------------------------------------------------------------
  // `bytes.decode("utf-8")` and `str.encode("utf-8")` on ASCII text.
  // ---------------------------------------------------------------------------------

  /** Decoding: `None` when a byte is outside ASCII (see README for multi-byte UTF-8). */
  function Decode(b: seq<byte>): (r: Option<string>)
    ensures r.Some? <==> forall j :: 0 <= j < |b| ==> b[j] < 128
    ensures r.Some? ==> |r.value| == |b| && forall j :: 0 <= j < |b| ==> r.value[j] as int == b[j] as int
  {
    if b == [] then Some([])
    else if b[0] >= 128 then None
    else
      match Decode(b[1..])
      case None => None
      case Some(t) => Some([b[0] as int as char] + t)
  }

  function Encode(s: string): (b: seq<byte>)
    requires IsAscii(s)
    ensures |b| == |s| && forall j :: 0 <= j < |s| ==> b[j] as int == s[j] as int
  {
    if s == [] then [] else [s[0] as int as byte] + Encode(s[1..])
  }

  /** Encoding ASCII text and decoding it again gives the text back. */
  lemma {:induction false} DecodeEncode(s: string)
    requires IsAscii(s)
    ensures Decode(Encode(s)) == Some(s)
  {
    if s != [] {
      var b := Encode(s);
      assert b == [s[0] as int as byte] + Encode(s[1..]);
      assert b[1..] == Encode(s[1..]);
      DecodeEncode(s[1..]);
      assert b[0] as int as char == s[0];
      assert [s[0]] + s[1..] == s;
    }
  }

  // ---------------------------------------------------------------------------------
  // What a writer reports.
  // ---------------------------------------------------------------------------------

  /** The exception a writer catches. */
  datatype Fault =
    | Library(message: string)  // raised by piexif or PIL; `str(e)` is the message
    | Undecodable               // `decode("utf-8")` of the stored value raised
    | Unparsable(e: ParseError) // `strptime` of the stored value raised
  {
    function Message(): string {
      match this
      case Library(m) => m
      case Undecodable => "'utf-8' codec can't decode the stored date"
      case Unparsable(e) => e.Message()
    }
  }

  datatype WriteStatus = AlreadyMatches | Updated | Failed(fault: Fault) {
    /** The status string the writer returns; its first character tells the three apart. */
    function Text(): (s: string)
      ensures |s| >= 2
      ensures s[0] == '\U{2705}' <==> this.AlreadyMatches?
      ensures s[0] == '\U{1F6E0}' <==> this.Updated?
      ensures s[0] == '\U{274C}' <==> this.Failed?
    {
      match this
      case AlreadyMatches => "\U{2705} Already matches"
      case Updated => "\U{1F6E0}\U{FE0F} Updated"
      case Failed(f) => "\U{274C} Failed: " + f.Message()
    }
  }

  /** A writer's status and the metadata it saved, when it saved any. */
  datatype WriteOutcome<M> = WriteOutcome(status: WriteStatus, written: Option<M>)

  /** Save `m` to a file: `image.save` raises the file's save fault, if it has one. */
  function Save<M>(img: Image, m: M): (o: WriteOutcome<M>)
    ensures o.status.Updated? <==> img.saveFault.None?
    ensures o.status.Updated? ==> o.written == Some(m)
    ensures o.status.Failed? ==> o.written.None? && o.status.fault == Library(img.saveFault.value)
  {
    match img.saveFault
    case Some(msg) => WriteOutcome(Failed(Library(msg)), None)
    case None => WriteOutcome(Updated, Some(m))
  }

  // ---------------------------------------------------------------------------------
  // update_metadata_jpeg
  // ---------------------------------------------------------------------------------

  /** `exif_dict["Exif"].get(DateTimeOriginal)`, with a missing tag read as the falsy empty value. */
  function StoredOriginal(exif: Exif): (v: seq<byte>)
    ensures DateTimeOriginal !in exif ==> v == []
    ensures v != [] ==> DateTimeOriginal in exif && exif[DateTimeOriginal] == v
  {
    if DateTimeOriginal in exif then exif[DateTimeOriginal] else []
  }

  /** The EXIF IFD with both date tags set to the rendering of `t`, all other tags kept. */
  function Stamped(exif: Exif, t: Timestamp): (r: Exif)
    ensures Rewritten(exif, r, t)
  {
    var v := Encode(FormatExif(t));
    var r := exif[DateTimeOriginal := v][DateTimeDigitized := v];
    assert r.Keys == exif.Keys + {DateTimeOriginal, DateTimeDigitized};
    assert r[DateTimeOriginal] == v && r[DateTimeDigitized] == v;
    assert forall k :: k in exif && k != DateTimeOriginal && k != DateTimeDigitized ==> r[k] == exif[k];
    r
  }

  /**
   * `update_metadata_jpeg`: "Already matches" exactly when the stored original date reads
   * back as the target, and then nothing is saved; whatever is saved is the loaded IFD with
   * both date tags rewritten, and it is saved only when the writer reports Updated.
   */
  function UpdateJpeg(img: Image, t: Timestamp): (o: WriteOutcome<Exif>)
    ensures o.status.AlreadyMatches? <==> img.exif.Ok? && JpegHolds(img.exif.value, t)
    ensures o.written.Some? <==> o.status.Updated?
    ensures o.written.Some? ==> img.exif.Ok? && img.saveFault.None? && Rewritten(img.exif.value, o.written.value, t)
  {
    match img.exif
    case Err(msg) => WriteOutcome(Failed(Library(msg)), None)
    case Ok(exif) =>
      var stored := StoredOriginal(exif);
      if stored == [] then Save(img, Stamped(exif, t))
      else
        match Decode(stored)
        case None => WriteOutcome(Failed(Undecodable), None)
        case Some(text) =>
          match ParseExif(text)
          case Err(e) => WriteOutcome(Failed(Unparsable(e)), None)
          case Ok(existing) =>
            if existing == t then WriteOutcome(AlreadyMatches, None) else Save(img, Stamped(exif, t))
  }

  /** The stored `DateTimeOriginal` is non-empty and reads back as `t`. */
  predicate JpegHolds(exif: Exif, t: Timestamp) {
    var stored := StoredOriginal(exif);
    stored != [] && Decode(stored).Some? && ParseExif(Decode(stored).value) == Ok(t)
  }

  /**
   * Any other readable, parseable or missing date is overwritten: both tags get the same
   * rendering of the target, every other tag is left untouched, and the file is saved
   * unless saving raises.
   */
  lemma JpegRewrites(img: Image, t: Timestamp)
    requires img.exif.Ok? && !JpegHolds(img.exif.value, t)
    requires var stored := StoredOriginal(img.exif.value);
      stored == [] || (Decode(stored).Some? && ParseExif(Decode(stored).value).Ok?)
    ensures var o := UpdateJpeg(img, t);
      (o.status.Updated? <==> img.saveFault.None?)
      && (o.status.Failed? ==> o.written.None? && o.status.fault == Library(img.saveFault.value))
      && (o.status.Updated? ==> o.written.Some? && Rewritten(img.exif.value, o.written.value, t))
  {
    var exif := img.exif.value;
    var stored := StoredOriginal(exif);
    if stored != [] {
      var existing := ParseExif(Decode(stored).value).value;
      assert existing != t;
    }
    assert UpdateJpeg(img, t) == Save(img, Stamped(exif, t));
  }

  /** `after` is `before` with both date tags set to the rendering of `t`, nothing else changed. */
  predicate Rewritten(before: Exif, after: Exif, t: Timestamp) {
    && after.Keys == before.Keys + {DateTimeOriginal, DateTimeDigitized}
    && after[DateTimeOriginal] == Encode(FormatExif(t))
    && after[DateTimeDigitized] == Encode(FormatExif(t))
    && forall k :: k in before && k != DateTimeOriginal && k != DateTimeDigitized ==> after[k] == before[k]
  }

  /** A stored date the writer cannot read is reported and the file is not saved. */
  lemma JpegFailsOnUnreadableDate(img: Image, t: Timestamp)
    requires img.exif.Ok?
    requires var stored := StoredOriginal(img.exif.value);
      stored != [] && (Decode(stored).None? || ParseExif(Decode(stored).value).Err?)
    ensures var o := UpdateJpeg(img, t);
      o.written.None? && o.status.Failed?
      && (Decode(StoredOriginal(img.exif.value)).None? ==> o.status.fault == Undecodable)
      && (Decode(StoredOriginal(img.exif.value)).Some? ==>
            o.status.fault == Unparsable(ParseExif(Decode(StoredOriginal(img.exif.value)).value).error))
  {
  }

  /** A file whose EXIF cannot be loaded is reported with the loader's message. */
  lemma JpegFailsOnLoad(img: Image, t: Timestamp)
    requires img.exif.Err?
    ensures UpdateJpeg(img, t) == WriteOutcome(Failed(Library(img.exif.error)), None)
  {
  }

  /** A single-digit stored date that means the target is accepted as it is. */
  lemma JpegAcceptsShortStoredDate(img: Image)
    requires img.exif.Ok? && DateTimeOriginal in img.exif.value
    requires Decode(img.exif.value[DateTimeOriginal]) == Some("2023:6:5 7:03:09")
    ensures UpdateJpeg(img, DateTime(2023, 6, 5, 7, 3, 9)).status == AlreadyMatches
  {
    ParseAcceptsShortFields();
    assert StoredOriginal(img.exif.value) != [];
    assert JpegHolds(img.exif.value, DateTime(2023, 6, 5, 7, 3, 9));
  }

  /** The file as the next load sees it: the saved EXIF, if the writer saved any. */
  function JpegAfter(img: Image, o: WriteOutcome<Exif>): Image {
    if o.written.Some? then img.(exif := Ok(o.written.value)) else img
  }

  /** Idempotence: once the writer has updated or matched a file, running it again matches. */
  lemma {:induction false} JpegSecondRunMatches(img: Image, t: Timestamp)
    requires !UpdateJpeg(img, t).status.Failed?
    ensures UpdateJpeg(JpegAfter(img, UpdateJpeg(img, t)), t) == WriteOutcome(AlreadyMatches, None)
  {
    var o := UpdateJpeg(img, t);
    var next := JpegAfter(img, o);
    if o.status.Updated? {
      DecodeEncode(FormatExif(t));
      ParseFormatRoundTrip(t);
      var after := o.written.value;
      assert StoredOriginal(after) == Encode(FormatExif(t));
      assert next.exif == Ok(after) && JpegHolds(after, t);
    } else {
      assert next == img;
    }
    assert UpdateJpeg(next, t).status.AlreadyMatches?;
  }

  // ---------------------------------------------------------------------------------
  // update_metadata_png
  // ---------------------------------------------------------------------------------

  /**
   * `update_metadata_png`: "Already matches" exactly when `Creation Time` is present and is
   * the target's rendering, and then nothing is saved; otherwise, when it reports Updated,
   * it has saved a fresh chunk set holding only `Creation Time`.
   */
  function UpdatePng(img: Image, t: Timestamp): (o: WriteOutcome<TextChunks>)
    ensures o.status.AlreadyMatches?
      <==> img.text.Ok? && CreationTime in img.text.value && img.text.value[CreationTime] == FormatPng(t)
    ensures o.written.Some? <==> o.status.Updated?
    ensures o.written.Some? ==> img.text.Ok? && img.saveFault.None? && o.written.value == map[CreationTime := FormatPng(t)]
    ensures img.text.Err? ==> o == WriteOutcome(Failed(Library(img.text.error)), None)
  {
    match img.text
    case Err(msg) => WriteOutcome(Failed(Library(msg)), None)
    case Ok(info) =>
      var s := FormatPng(t);
      if CreationTime in info && info[CreationTime] == s then WriteOutcome(AlreadyMatches, None)
      else Save(img, map[CreationTime := s])
  }

  /**
   * Otherwise the file is saved with a fresh text-chunk set holding just `Creation Time`
   * set to the rendering of the target, unless loading or saving raises.
   */
  lemma PngRewrites(img: Image, t: Timestamp)
    requires img.text.Ok?
    requires !(CreationTime in img.text.value && img.text.value[CreationTime] == FormatPng(t))
    ensures var o := UpdatePng(img, t);
      (o.status.Updated? <==> img.saveFault.None?)
      && (o.status.Updated? ==> o.written == Some(map[CreationTime := FormatPng(t)]))
      && (o.status.Failed? ==> o.written.None? && o.status.fault == Library(img.saveFault.value))
  {
  }

  /** A PNG can already match at most one target time. */
  lemma PngMatchesOneTime(img: Image, t1: Timestamp, t2: Timestamp)
    requires UpdatePng(img, t1).status.AlreadyMatches? && UpdatePng(img, t2).status.AlreadyMatches?
    ensures t1 == t2
  {
    FormatPngInjective(t1, t2);
  }

  function PngAfter(img: Image, o: WriteOutcome<TextChunks>): Image {
    if o.written.Some? then img.(text := Ok(o.written.value)) else img
  }

  /** Idempotence for PNG files. */
  lemma PngSecondRunMatches(img: Image, t: Timestamp)
    requires !UpdatePng(img, t).status.Failed?
    ensures UpdatePng(PngAfter(img, UpdatePng(img, t)), t) == WriteOutcome(AlreadyMatches, None)
  {
  }

  /** Neither writer lets an exception escape: every failure carries the `❌ Failed: ` prefix. */
  lemma FailureText(s: WriteStatus)
    requires s.Failed?
    ensures s.Text() == "\U{274C} Failed: " + s.fault.Message()
    ensures |s.Text()| >= 10 && s.Text()[..10] == "\U{274C} Failed: "
  {
  }
}

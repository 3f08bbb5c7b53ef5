/**
 * Filename to timestamp inference (`extract_date_from_title`): an ordered list of
 * regular expressions, each searched for anywhere in the file name; the first one that
 * matches and captures six groups decides, and its groups go to the `datetime`
 * constructor, which raises on an impossible date.
 */
module Inference {
  import opened Wrappers
  import opened Text
  import opened Calendar

  // ---------------------------------------------------------------------------------
  // The regular expressions the conventions use, as a list of tokens: literal text, a
  // capture group of a fixed number of ASCII digits (`(\d{4})`), and an uncaptured greedy
  // run of digits (`\d+`).
  // ---------------------------------------------------------------------------------

  datatype Token = Lit(text: string) | Group(width: nat) | DigitRun

  datatype Pattern = End | Then(tok: Token, rest: Pattern)

  function Size(p: Pattern): nat {
    match p
    case End => 0
    case Then(_, rest) => 1 + Size(rest)
  }

  /** `len(match.groups())`: the number of capture groups, fixed by the pattern. */
  function GroupCount(p: Pattern): nat {
    match p
    case End => 0
    case Then(tok, rest) => (if tok.Group? then 1 else 0) + GroupCount(rest)
  }

  /** Every character of `s` in `lo..hi` is an ASCII digit. */
  predicate DigitsAt(s: string, lo: int, hi: int) {
    0 <= lo <= hi <= |s| && forall j :: lo <= j < hi ==> IsDigit(s[j])
  }

  /** The length of the run of digits starting at `i`: it ends at a non-digit or at the end. */
  function RunLength(s: string, i: nat): (n: nat)
    requires i <= |s|
    ensures DigitsAt(s, i, i + n)
    ensures i + n == |s| || !IsDigit(s[i + n])
    decreases |s| - i
  {
    if i < |s| && IsDigit(s[i]) then 1 + RunLength(s, i + 1) else 0
  }

  /**
   * `pattern.match(s, i)`: the captured group values when `p` matches at index `i`,
   * explored in the order of Python's backtracking engine (a digit run first takes as many
   * digits as it can, then gives them back one at a time).
   */
  function MatchAt(p: Pattern, s: string, i: nat): (r: Option<seq<nat>>)
    requires i <= |s|
    ensures r.Some? ==> |r.value| == GroupCount(p)
    decreases Size(p), 1, 0
  {
    match p
    case End => Some([])
    case Then(Lit(t), rest) =>
      if i + |t| <= |s| && s[i..i + |t|] == t then MatchAt(rest, s, i + |t|) else None
    case Then(Group(w), rest) =>
      if DigitsAt(s, i, i + w) then
        assert AllDigits(s[i..i + w]);
        match MatchAt(rest, s, i + w)
        case Some(g) => Some([Dec(s[i..i + w])] + g)
        case None => None
      else None
    case Then(DigitRun, rest) => TryRun(rest, s, i, RunLength(s, i))
  }

  /** `\d+` followed by `rest`: try run lengths `k`, `k - 1`, ..., 1. */
  function TryRun(rest: Pattern, s: string, i: nat, k: nat): (r: Option<seq<nat>>)
    requires i + k <= |s|
    ensures r.Some? ==> |r.value| == GroupCount(rest)
    decreases Size(rest) + 1, 0, k
  {
    if k == 0 then None
    else
      match MatchAt(rest, s, i + k)
      case Some(g) => Some(g)
      case None => TryRun(rest, s, i, k - 1)
  }

  /** `re.search(p, s)` from index `i` on: the leftmost match. */
  function SearchFrom(p: Pattern, s: string, i: nat): (r: Option<seq<nat>>)
    requires i <= |s|
    ensures r.Some? ==> |r.value| == GroupCount(p)
    decreases |s| - i
  {
    match MatchAt(p, s, i)
    case Some(g) => Some(g)
    case None => if i == |s| then None else SearchFrom(p, s, i + 1)
  }

  function Search(p: Pattern, s: string): (r: Option<seq<nat>>)
    ensures r.Some? ==> |r.value| == GroupCount(p)
  {
    SearchFrom(p, s, 0)
  }

  // ---------------------------------------------------------------------------------
  // The conventions, in the order they are tried.
  // ---------------------------------------------------------------------------------

  /** `<tag>(\d{4})(\d{2})(\d{2})<sep>(\d{2})(\d{2})(\d{2})`. */
  function StampPattern(tag: string, sep: char): Pattern {
    Then(Lit(tag), DateDigits(sep))
  }

  /** `(\d{4})(\d{2})(\d{2})<sep>(\d{2})(\d{2})(\d{2})`. */
  function DateDigits(sep: char): Pattern {
    Then(Group(4), Then(Group(2), Then(Group(2), Then(Lit([sep]), TimeDigits()))))
  }

  /** `(\d{2})(\d{2})(\d{2})`. */
  function TimeDigits(): Pattern {
    Then(Group(2), Then(Group(2), Then(Group(2), End)))
  }

  const PixelTag: string := "PXL_"
  const CameraTag: string := "IMG_"
  const ScreenshotTag: string := "Screenshot_"

  function PixelPattern(): Pattern { StampPattern(PixelTag, '_') }
  function CameraPattern(): Pattern { StampPattern(CameraTag, '_') }
  function ScreenshotPattern(): Pattern { StampPattern(ScreenshotTag, '-') }

  /** `IMG-(\d{4})(\d{2})(\d{2})-WA\d+\.jpg`: three groups only. */
  function WhatsAppPattern(): Pattern {
    Then(Lit("IMG-"), Then(Group(4), Then(Group(2), Then(Group(2), WhatsAppTail()))))
  }

  /**
   * The pattern list, in the order it is tried: the three timestamp layouts, each with six
   * groups, and last the WhatsApp pattern, which has only three.
   */
  function Conventions(): (ps: seq<Pattern>)
    ensures |ps| == 4
    ensures ps[0] == PixelPattern() && ps[1] == CameraPattern() && ps[2] == ScreenshotPattern()
    ensures forall k :: 0 <= k < 3 ==> GroupCount(ps[k]) == 6
    ensures GroupCount(ps[3]) == 3
  {
    StampGroupCount(PixelTag, '_');
    StampGroupCount(CameraTag, '_');
    StampGroupCount(ScreenshotTag, '-');
    WhatsAppGroupCount();
    [PixelPattern(), CameraPattern(), ScreenshotPattern(), WhatsAppPattern()]
  }

  /** What the inference hands back: `None`, a `datetime`, or the `ValueError` it raised. */
  datatype Inferred = NoDate | Date(t: Timestamp) | Raised(e: CalendarError)

  /** `datetime(year, month, day, hour, minute, second)` applied to six captured groups. */
  function FromGroups(g: seq<nat>): (r: Inferred)
    requires |g| == 6
    ensures !r.NoDate?
    ensures r.Date? <==> IsValid(DateTime(g[0], g[1], g[2], g[3], g[4], g[5]))
    ensures r.Date? ==> r.t == DateTime(g[0], g[1], g[2], g[3], g[4], g[5])
    ensures r.Raised? ==> r.e.FailsOn(DateTime(g[0], g[1], g[2], g[3], g[4], g[5]))
    ensures r.Raised? ==> r.e.EarlierChecksPass(DateTime(g[0], g[1], g[2], g[3], g[4], g[5]))
  {
    match MakeTimestamp(g[0], g[1], g[2], g[3], g[4], g[5])
    case Ok(t) => Date(t)
    case Err(e) => Raised(e)
  }

  /** `p` ends the loop on `name`: its search succeeds and it has the six groups. */
  predicate Decides(p: Pattern, name: string) {
    Search(p, name).Some? && GroupCount(p) == 6
  }

  /**
   * The `for pattern in patterns` loop with its early return: no date exactly when no
   * pattern decides; otherwise the first pattern that decides gives the result.
   */
  function ExtractFrom(patterns: seq<Pattern>, name: string): (r: Inferred)
    ensures r.NoDate? <==> forall k :: 0 <= k < |patterns| ==> !Decides(patterns[k], name)
    ensures !r.NoDate? ==>
      exists k :: 0 <= k < |patterns| && Decides(patterns[k], name)
        && (forall j :: 0 <= j < k ==> !Decides(patterns[j], name))
        && r == FromGroups(Search(patterns[k], name).value)
  {
    if patterns == [] then NoDate
    else
      var m := Search(patterns[0], name);
      assert forall k :: 1 <= k < |patterns| ==> patterns[1..][k - 1] == patterns[k];
      if m.Some? && GroupCount(patterns[0]) == 6 then
        assert Decides(patterns[0], name);
        FromGroups(m.value)
      else
        assert !Decides(patterns[0], name);
        var r := ExtractFrom(patterns[1..], name);
        assert !r.NoDate? ==>
          exists k :: 1 <= k < |patterns| && Decides(patterns[k], name)
            && (forall j :: 0 <= j < k ==> !Decides(patterns[j], name))
            && r == FromGroups(Search(patterns[k], name).value) by {
          if !r.NoDate? {
            var k' :| 0 <= k' < |patterns[1..]| && Decides(patterns[1..][k'], name)
              && (forall j :: 0 <= j < k' ==> !Decides(patterns[1..][j], name))
              && r == FromGroups(Search(patterns[1..][k'], name).value);
            assert Decides(patterns[k' + 1], name);
          }
        }
        r
  }

  /**
   * `extract_date_from_title(filename)`: `None` exactly when the name holds none of the
   * three timestamp layouts anywhere; otherwise the date of the first convention present,
   * or the error its digits raise.
   */
  function ExtractDateFromTitle(name: string): (r: Inferred)
    ensures r == NoDate ==>
      forall l :: 0 <= l <= |name| ==>
        !StampAt(PixelTag, '_', name, l) && !StampAt(CameraTag, '_', name, l)
        && !StampAt(ScreenshotTag, '-', name, l)
    ensures (forall l :: 0 <= l <= |name| ==>
               !StampAt(PixelTag, '_', name, l) && !StampAt(CameraTag, '_', name, l)
               && !StampAt(ScreenshotTag, '-', name, l))
      ==> r == NoDate
  {
    StampSearchNone(PixelTag, '_', name);
    StampSearchNone(CameraTag, '_', name);
    StampSearchNone(ScreenshotTag, '-', name);
    ExtractByConvention(name);
    ExtractFrom(Conventions(), name)
  }

  // ---------------------------------------------------------------------------------
  // The layout of a timestamped name, stated by position, independently of the engine.
  // ---------------------------------------------------------------------------------

  /** `tag`, eight digits, `sep` and six digits start at index `i` of `s`. */
  predicate StampAt(tag: string, sep: char, s: string, i: int) {
    0 <= i && i + |tag| + 15 <= |s| && s[i..i + |tag|] == tag
    && DigitsAt(s, i + |tag|, i + |tag| + 8) && s[i + |tag| + 8] == sep
    && DigitsAt(s, i + |tag| + 9, i + |tag| + 15)
  }

  /** Year, month, day, hour, minute and second read from a stamp at `i`. */
  function StampFields(tag: string, s: string, i: nat): (g: seq<nat>)
    requires i + |tag| + 15 <= |s|
    requires DigitsAt(s, i + |tag|, i + |tag| + 8) && DigitsAt(s, i + |tag| + 9, i + |tag| + 15)
    ensures |g| == 6
  {
    var k := i + |tag|;
    assert AllDigits(s[k..k + 4]) && AllDigits(s[k + 4..k + 6]) && AllDigits(s[k + 6..k + 8]);
    assert AllDigits(s[k + 9..k + 11]) && AllDigits(s[k + 11..k + 13]) && AllDigits(s[k + 13..k + 15]);
    [Dec(s[k..k + 4]), Dec(s[k + 4..k + 6]), Dec(s[k + 6..k + 8]),
     Dec(s[k + 9..k + 11]), Dec(s[k + 11..k + 13]), Dec(s[k + 13..k + 15])]
  }

  /** The value of the `w` digits at `i`. */
  function DecAt(s: string, i: nat, w: nat): nat
    requires DigitsAt(s, i, i + w)
  {
    assert AllDigits(s[i..i + w]);
    Dec(s[i..i + w])
  }

  /** One capture group: its digits are consumed and their value prepended to what follows. */
  lemma GroupStep(w: nat, rest: Pattern, s: string, i: nat)
    requires i <= |s|
    ensures MatchAt(Then(Group(w), rest), s, i)
      == if DigitsAt(s, i, i + w) && MatchAt(rest, s, i + w).Some?
         then Some([DecAt(s, i, w)] + MatchAt(rest, s, i + w).value) else None
  {
  }

  /** One literal: it must be there, and matching goes on after it. */
  lemma LitStep(t: string, rest: Pattern, s: string, i: nat)
    requires i <= |s|
    ensures MatchAt(Then(Lit(t), rest), s, i)
      == if i + |t| <= |s| && s[i..i + |t|] == t then MatchAt(rest, s, i + |t|) else None
  {
  }

  /** The engine on the three time groups: they match exactly when six digits are there. */
  lemma TimeMatch(s: string, k: nat)
    requires k <= |s|
    ensures MatchAt(TimeDigits(), s, k)
      == if DigitsAt(s, k, k + 6) then Some([DecAt(s, k, 2), DecAt(s, k + 2, 2), DecAt(s, k + 4, 2)]) else None
  {
    var p2 := Then(Group(2), End);
    var p1 := Then(Group(2), p2);
    if k + 4 <= |s| {
      GroupStep(2, End, s, k + 4);
    }
    if k + 2 <= |s| {
      GroupStep(2, p2, s, k + 2);
    }
    GroupStep(2, p1, s, k);
    assert TimeDigits() == Then(Group(2), p1);
    if DigitsAt(s, k, k + 6) {
      assert DigitsAt(s, k + 4, k + 6) && DigitsAt(s, k + 2, k + 4) && DigitsAt(s, k, k + 2);
      var a, b, c := DecAt(s, k, 2), DecAt(s, k + 2, 2), DecAt(s, k + 4, 2);
      assert [c] + [] == [c] && [b] + [c] == [b, c] && [a] + [b, c] == [a, b, c];
    } else if DigitsAt(s, k, k + 2) && DigitsAt(s, k + 2, k + 4) {
      assert !DigitsAt(s, k + 4, k + 6);
    }
  }

  /** The engine on the separator followed by the time groups. */
  lemma SepTimeMatch(s: string, k: nat, sep: char)
    requires k <= |s|
    ensures MatchAt(Then(Lit([sep]), TimeDigits()), s, k)
      == if k < |s| && s[k] == sep && DigitsAt(s, k + 1, k + 7)
         then Some([DecAt(s, k + 1, 2), DecAt(s, k + 3, 2), DecAt(s, k + 5, 2)]) else None
  {
    LitStep([sep], TimeDigits(), s, k);
    if k + 1 <= |s| {
      TimeMatch(s, k + 1);
      assert s[k..k + 1] == [sep] <==> s[k] == sep;
    }
  }

  /** The engine on the date groups, separator and time groups of a stamp at `k`. */
  lemma DateMatch(s: string, k: nat, sep: char)
    requires k <= |s|
    ensures MatchAt(DateDigits(sep), s, k)
      == if DigitsAt(s, k, k + 8) && k + 8 < |s| && s[k + 8] == sep && DigitsAt(s, k + 9, k + 15)
         then Some([DecAt(s, k, 4), DecAt(s, k + 4, 2), DecAt(s, k + 6, 2),
                    DecAt(s, k + 9, 2), DecAt(s, k + 11, 2), DecAt(s, k + 13, 2)])
         else None
  {
    var q3 := Then(Lit([sep]), TimeDigits());
    var q2 := Then(Group(2), q3);
    var q1 := Then(Group(2), q2);
    if k + 8 <= |s| {
      SepTimeMatch(s, k + 8, sep);
    }
    if k + 6 <= |s| {
      GroupStep(2, q3, s, k + 6);
    }
    if k + 4 <= |s| {
      GroupStep(2, q2, s, k + 4);
    }
    GroupStep(4, q1, s, k);
    assert DateDigits(sep) == Then(Group(4), q1);
    if DigitsAt(s, k, k + 8) {
      assert DigitsAt(s, k + 6, k + 8) && DigitsAt(s, k + 4, k + 6) && DigitsAt(s, k, k + 4);
      if k + 8 < |s| && s[k + 8] == sep && DigitsAt(s, k + 9, k + 15) {
        var t := [DecAt(s, k + 9, 2), DecAt(s, k + 11, 2), DecAt(s, k + 13, 2)];
        var d, m, y := DecAt(s, k + 6, 2), DecAt(s, k + 4, 2), DecAt(s, k, 4);
        assert MatchAt(q2, s, k + 6) == Some([d] + t);
        assert [m] + ([d] + t) == [m, d] + t;
        assert MatchAt(q1, s, k + 4) == Some([m, d] + t);
        assert [y] + ([m, d] + t) == [y, m, d] + t;
        assert [y, m, d] + t == [y, m, d, t[0], t[1], t[2]];
      }
    } else if DigitsAt(s, k, k + 4) && DigitsAt(s, k + 4, k + 6) {
      assert !DigitsAt(s, k + 6, k + 8);
    }
  }

  /** The engine matches a stamp pattern at `i` exactly when the stamp layout is there. */
  lemma MatchStamp(tag: string, sep: char, s: string, i: nat)
    requires i <= |s|
    ensures MatchAt(StampPattern(tag, sep), s, i)
      == if StampAt(tag, sep, s, i) then Some(StampFields(tag, s, i)) else None
  {
    if i + |tag| <= |s| && s[i..i + |tag|] == tag {
      DateMatch(s, i + |tag|, sep);
    }
  }

  // ---------------------------------------------------------------------------------
  // `re.search` finds the leftmost match.
  // ---------------------------------------------------------------------------------

  lemma {:induction false} SearchFromLeftmost(p: Pattern, s: string, j: nat, i: nat)
    requires j <= i <= |s|
    requires MatchAt(p, s, i).Some?
    requires forall l :: j <= l < i ==> MatchAt(p, s, l).None?
    ensures SearchFrom(p, s, j) == MatchAt(p, s, i)
    decreases i - j
  {
    if j < i {
      SearchFromLeftmost(p, s, j + 1, i);
    }
  }

  /** When `p` first matches at `i`, the search reports that match. */
  lemma SearchLeftmost(p: Pattern, s: string, i: nat)
    requires i <= |s|
    requires MatchAt(p, s, i).Some?
    requires forall l :: 0 <= l < i ==> MatchAt(p, s, l).None?
    ensures Search(p, s) == MatchAt(p, s, i)
  {
    SearchFromLeftmost(p, s, 0, i);
  }

  /** `p` matches at no index from `j` on. */
  predicate NoMatchFrom(p: Pattern, s: string, j: nat) {
    forall l :: j <= l <= |s| ==> MatchAt(p, s, l).None?
  }

  lemma {:induction false} SearchFromNone(p: Pattern, s: string, j: nat)
    requires j <= |s|
    ensures SearchFrom(p, s, j).None? <==> NoMatchFrom(p, s, j)
    decreases |s| - j
  {
    if j < |s| {
      SearchFromNone(p, s, j + 1);
    }
  }

  /** The search finds nothing exactly when `p` matches at no index. */
  lemma SearchNone(p: Pattern, s: string)
    ensures Search(p, s).None? ==> forall l :: 0 <= l <= |s| ==> MatchAt(p, s, l).None?
    ensures (forall l :: 0 <= l <= |s| ==> MatchAt(p, s, l).None?) ==> Search(p, s).None?
  {
    SearchFromNone(p, s, 0);
  }

  // ---------------------------------------------------------------------------------
  // The conventions, stated by layout.
  // ---------------------------------------------------------------------------------

  /** A stamp convention's search result, read off the leftmost stamp in the name. */
  lemma StampSearch(tag: string, sep: char, s: string, i: nat)
    requires StampAt(tag, sep, s, i)
    requires forall l :: 0 <= l < i ==> !StampAt(tag, sep, s, l)
    ensures Search(StampPattern(tag, sep), s) == Some(StampFields(tag, s, i))
  {
    MatchStamp(tag, sep, s, i);
    forall l | 0 <= l < i
      ensures MatchAt(StampPattern(tag, sep), s, l).None?
    {
      MatchStamp(tag, sep, s, l);
    }
    SearchLeftmost(StampPattern(tag, sep), s, i);
  }

  /** A stamp convention's search finds nothing exactly when no stamp is in the name. */
  lemma StampSearchNone(tag: string, sep: char, s: string)
    ensures Search(StampPattern(tag, sep), s).None? ==> forall l :: 0 <= l <= |s| ==> !StampAt(tag, sep, s, l)
    ensures (forall l :: 0 <= l <= |s| ==> !StampAt(tag, sep, s, l)) ==> Search(StampPattern(tag, sep), s).None?
  {
    forall l | 0 <= l <= |s|
      ensures MatchAt(StampPattern(tag, sep), s, l).None? <==> !StampAt(tag, sep, s, l)
    {
      MatchStamp(tag, sep, s, l);
    }
    SearchNone(StampPattern(tag, sep), s);
  }

  lemma StampGroupCount(tag: string, sep: char)
    ensures GroupCount(StampPattern(tag, sep)) == 6
  {
    var q3 := Then(Lit([sep]), TimeDigits());
    assert GroupCount(Then(Group(2), End)) == 1;
    assert GroupCount(TimeDigits()) == 3;
    assert GroupCount(q3) == 3;
    assert GroupCount(Then(Group(2), q3)) == 4;
    assert GroupCount(DateDigits(sep)) == 6;
  }

  lemma WhatsAppGroupCount()
    ensures GroupCount(WhatsAppPattern()) == 3
  {
    assert GroupCount(WhatsAppTail()) == 0;
  }

  /**
   * The pattern loop over the list in order: the first of the three six-group conventions
   * whose search succeeds decides, and the WhatsApp pattern, with its three groups, never does.
   */
  lemma ExtractByConvention(name: string)
    ensures ExtractFrom(Conventions(), name)
      == if Search(PixelPattern(), name).Some? then FromGroups(Search(PixelPattern(), name).value)
         else if Search(CameraPattern(), name).Some? then FromGroups(Search(CameraPattern(), name).value)
         else if Search(ScreenshotPattern(), name).Some? then FromGroups(Search(ScreenshotPattern(), name).value)
         else NoDate
  {
    StampGroupCount(PixelTag, '_');
    StampGroupCount(CameraTag, '_');
    StampGroupCount(ScreenshotTag, '-');
    WhatsAppGroupCount();
    var l3 := [WhatsAppPattern()];
    var l2 := [ScreenshotPattern()] + l3;
    var l1 := [CameraPattern()] + l2;
    assert Conventions() == [PixelPattern()] + l1;
    assert l3[1..] == [];
    assert ExtractFrom(l3, name) == NoDate;
    assert l2[1..] == l3 && l1[1..] == l2 && ([PixelPattern()] + l1)[1..] == l1;
    assert l2[0] == ScreenshotPattern() && l1[0] == CameraPattern();
    var m3 := Search(ScreenshotPattern(), name);
    assert ExtractFrom(l2, name) == if m3.Some? then FromGroups(m3.value) else NoDate;
    var m2 := Search(CameraPattern(), name);
    assert ExtractFrom(l1, name) == if m2.Some? then FromGroups(m2.value) else ExtractFrom(l2, name);
  }

  /** A `PXL_` stamp anywhere in the name gives exactly its digits; the leftmost one decides. */
  lemma PixelNameYieldsItsDigits(name: string, i: nat)
    requires StampAt(PixelTag, '_', name, i)
    requires forall l :: 0 <= l < i ==> !StampAt(PixelTag, '_', name, l)
    ensures ExtractDateFromTitle(name) == FromGroups(StampFields(PixelTag, name, i))
  {
    StampSearch(PixelTag, '_', name, i);
    ExtractByConvention(name);
  }

  /** An `IMG_` stamp decides when the name holds no `PXL_` stamp. */
  lemma CameraNameYieldsItsDigits(name: string, i: nat)
    requires forall l :: 0 <= l <= |name| ==> !StampAt(PixelTag, '_', name, l)
    requires StampAt(CameraTag, '_', name, i)
    requires forall l :: 0 <= l < i ==> !StampAt(CameraTag, '_', name, l)
    ensures ExtractDateFromTitle(name) == FromGroups(StampFields(CameraTag, name, i))
  {
    StampSearchNone(PixelTag, '_', name);
    StampSearch(CameraTag, '_', name, i);
    ExtractByConvention(name);
  }

  /** A `Screenshot_` stamp decides when the name holds neither earlier convention. */
  lemma ScreenshotNameYieldsItsDigits(name: string, i: nat)
    requires forall l :: 0 <= l <= |name| ==> !StampAt(PixelTag, '_', name, l)
    requires forall l :: 0 <= l <= |name| ==> !StampAt(CameraTag, '_', name, l)
    requires StampAt(ScreenshotTag, '-', name, i)
    requires forall l :: 0 <= l < i ==> !StampAt(ScreenshotTag, '-', name, l)
    ensures ExtractDateFromTitle(name) == FromGroups(StampFields(ScreenshotTag, name, i))
  {
    StampSearchNone(PixelTag, '_', name);
    StampSearchNone(CameraTag, '_', name);
    StampSearch(ScreenshotTag, '-', name, i);
    ExtractByConvention(name);
  }

  const WhatsAppExample: string := "IMG-20230615-WA0007.jpg"

  /** `-WA\d+\.jpg`, the uncaptured tail of the WhatsApp pattern. */
  function WhatsAppTail(): Pattern {
    Then(Lit("-WA"), Then(DigitRun, Then(Lit(".jpg"), End)))
  }

  lemma WhatsAppTailMatches()
    ensures MatchAt(WhatsAppTail(), WhatsAppExample, 12) == Some([])
  {
    var n := WhatsAppExample;
    var r4 := Then(Lit(".jpg"), End);
    assert n[19..23] == ".jpg";
    LitStep(".jpg", End, n, 19);
    assert RunLength(n, 19) == 0;
    assert RunLength(n, 15) == 4 by {
      assert RunLength(n, 18) == 1;
      assert RunLength(n, 17) == 2;
      assert RunLength(n, 16) == 3;
    }
    assert MatchAt(Then(DigitRun, r4), n, 15) == Some([]);
    assert n[12..15] == "-WA";
    LitStep("-WA", Then(DigitRun, r4), n, 12);
  }

  lemma WhatsAppDigits()
    ensures DigitsAt(WhatsAppExample, 4, 12)
    ensures DecAt(WhatsAppExample, 4, 4) == 2023 && DecAt(WhatsAppExample, 8, 2) == 6
    ensures DecAt(WhatsAppExample, 10, 2) == 15
  {
    var n := WhatsAppExample;
    assert DigitsAt(n, 4, 12);
    assert n[4..8] == "2023" && n[8..10] == "06" && n[10..12] == "15";
    ExampleDigits();
    assert "06"[..1] == "0" && "0"[..0] == [] && "15"[..1] == "1" && "1"[..0] == [];
  }

  /** The three groups of the WhatsApp pattern and its tail, from index 4 of the example. */
  lemma WhatsAppGroupsMatch()
    ensures MatchAt(Then(Group(4), Then(Group(2), Then(Group(2), WhatsAppTail()))), WhatsAppExample, 4)
      == Some([2023, 6, 15])
  {
    var n := WhatsAppExample;
    var r2 := Then(Group(2), WhatsAppTail());
    var r1 := Then(Group(2), r2);
    WhatsAppTailMatches();
    WhatsAppDigits();
    GroupStep(2, WhatsAppTail(), n, 10);
    assert [15] + [] == [15];
    GroupStep(2, r2, n, 8);
    assert [6] + [15] == [6, 15];
    GroupStep(4, r1, n, 4);
    assert [2023] + [6, 15] == [2023, 6, 15];
  }

  lemma WhatsAppHead()
    ensures WhatsAppExample[..4] == "IMG-"
  {
    var n := WhatsAppExample;
    assert n[0] == 'I' && n[1] == 'M' && n[2] == 'G' && n[3] == '-';
    var h := n[..4];
    assert h[0] == 'I' && h[1] == 'M' && h[2] == 'G' && h[3] == '-';
  }

  /** The WhatsApp pattern does match a WhatsApp name, capturing year, month and day only. */
  lemma WhatsAppPatternMatches()
    ensures Search(WhatsAppPattern(), WhatsAppExample) == Some([2023, 6, 15])
  {
    var n := WhatsAppExample;
    var r0 := Then(Group(4), Then(Group(2), Then(Group(2), WhatsAppTail())));
    assert MatchAt(WhatsAppPattern(), n, 0) == Some([2023, 6, 15]) by {
      WhatsAppGroupsMatch();
      WhatsAppHead();
      LitStep("IMG-", r0, n, 0);
    }
    assert SearchFrom(WhatsAppPattern(), n, 0) == MatchAt(WhatsAppPattern(), n, 0);
  }

  /** A WhatsApp name has no date: its pattern matches but captures only three groups. */
  lemma WhatsAppNameHasNoDate()
    ensures ExtractDateFromTitle(WhatsAppExample) == NoDate
  {
    var name := WhatsAppExample;
    forall l | 0 <= l <= |name|
      ensures !StampAt(PixelTag, '_', name, l) && !StampAt(CameraTag, '_', name, l)
      ensures !StampAt(ScreenshotTag, '-', name, l)
    {
    }
  }

  lemma InvalidGroupsRaise()
    ensures FromGroups([2023, 2, 30, 12, 0, 0]) == Raised(DayOutOfRange)
    ensures FromGroups([2023, 13, 1, 0, 0, 0]) == Raised(MonthOutOfRange)
  {
  }

  /** Where the parts of an assembled name sit. */
  lemma AssembledLayout(tag: string, sep: char, ds: string, ts: string, tail: string)
    requires |ds| == 8 && |ts| == 6
    ensures var n, k := tag + ds + [sep] + ts + tail, |tag|;
      k + 15 <= |n| && n[..k] == tag && n[k..k + 8] == ds && n[k + 8] == sep && n[k + 9..k + 15] == ts
  {
    var n, k := tag + ds + [sep] + ts + tail, |tag|;
    assert n == tag + (ds + ([sep] + (ts + tail)));
  }

  lemma SliceDigits(n: string, lo: nat, hi: nat)
    requires lo <= hi <= |n| && AllDigits(n[lo..hi])
    ensures DigitsAt(n, lo, hi)
  {
    forall j | lo <= j < hi ensures IsDigit(n[j]) {
      assert n[j] == n[lo..hi][j - lo];
    }
  }

  /** A name assembled from a tag, eight date digits, a separator and six time digits holds that stamp at its start. */
  lemma AssembledStamp(tag: string, sep: char, ds: string, ts: string, tail: string)
    requires |ds| == 8 && |ts| == 6 && AllDigits(ds) && AllDigits(ts)
    ensures var n := tag + ds + [sep] + ts + tail;
      StampAt(tag, sep, n, 0)
      && StampFields(tag, n, 0)
         == [Dec(ds[..4]), Dec(ds[4..6]), Dec(ds[6..]), Dec(ts[..2]), Dec(ts[2..4]), Dec(ts[4..])]
  {
    var n, k := tag + ds + [sep] + ts + tail, |tag|;
    AssembledLayout(tag, sep, ds, ts, tail);
    SliceDigits(n, k, k + 8);
    SliceDigits(n, k + 9, k + 15);
    assert n[k..k + 4] == ds[..4] && n[k + 4..k + 6] == ds[4..6] && n[k + 6..k + 8] == ds[6..];
    assert n[k + 9..k + 11] == ts[..2] && n[k + 11..k + 13] == ts[2..4] && n[k + 13..k + 15] == ts[4..];
  }

  lemma DigitsAppend(a: string, b: string)
    requires AllDigits(a) && AllDigits(b)
    ensures AllDigits(a + b)
  {
    forall j | 0 <= j < |a + b| ensures IsDigit((a + b)[j]) {
      if j >= |a| { assert (a + b)[j] == b[j - |a|]; }
    }
  }

  /** The same, with the date and time digits given field by field. */
  lemma AssembledFields(tag: string, sep: char, y: string, mo: string, d: string,
                        h: string, mi: string, sec: string, tail: string)
    requires |y| == 4 && |mo| == 2 && |d| == 2 && |h| == 2 && |mi| == 2 && |sec| == 2
    requires AllDigits(y) && AllDigits(mo) && AllDigits(d) && AllDigits(h) && AllDigits(mi) && AllDigits(sec)
    ensures var n := tag + (y + mo + d) + [sep] + (h + mi + sec) + tail;
      StampAt(tag, sep, n, 0)
      && StampFields(tag, n, 0) == [Dec(y), Dec(mo), Dec(d), Dec(h), Dec(mi), Dec(sec)]
  {
    var ds, ts := y + mo + d, h + mi + sec;
    DigitsAppend(y, mo);
    DigitsAppend(y + mo, d);
    DigitsAppend(h, mi);
    DigitsAppend(h + mi, sec);
    assert ds[..4] == y && ds[4..6] == mo && ds[6..] == d;
    assert ts[..2] == h && ts[2..4] == mi && ts[4..] == sec;
    AssembledStamp(tag, sep, ds, ts, tail);
  }

  const PixelExample: string := "PXL_20230230_120000.jpg"
  const CameraExample: string := "IMG_20231301_000000.jpg"

  lemma PixelExampleFields()
    ensures StampAt(PixelTag, '_', PixelExample, 0)
    ensures StampFields(PixelTag, PixelExample, 0) == [2023, 2, 30, 12, 0, 0]
  {
    assert PixelExample == PixelTag + ("2023" + "02" + "30") + ['_'] + ("12" + "00" + "00") + ".jpg";
    AssembledFields(PixelTag, '_', "2023", "02", "30", "12", "00", "00", ".jpg");
    ExampleDigits();
  }

  lemma ExampleDigits()
    ensures Dec("2023") == 2023 && Dec("02") == 2 && Dec("30") == 30
    ensures Dec("12") == 12 && Dec("00") == 0 && Dec("13") == 13 && Dec("01") == 1
  {
    assert "2023"[..3] == "202" && "202"[..2] == "20" && "20"[..1] == "2" && "2"[..0] == [];
    assert "02"[..1] == "0" && "0"[..0] == [];
    assert "30"[..1] == "3" && "3"[..0] == [];
    assert "12"[..1] == "1" && "1"[..0] == [];
    assert "13"[..1] == "1" && "00"[..1] == "0" && "01"[..1] == "0";
  }

  /** A name that does not contain the tag's first character holds no stamp with that tag. */
  lemma AbsentTagNoStamp(tag: string, sep: char, s: string, i: int)
    requires tag != [] && forall j :: 0 <= j < |s| ==> s[j] != tag[0]
    ensures !StampAt(tag, sep, s, i)
  {
  }

  /** The camera example holds no Pixel stamp: it has no `P`. */
  lemma CameraExampleNotPixel()
    ensures forall l :: 0 <= l <= |CameraExample| ==> !StampAt(PixelTag, '_', CameraExample, l)
  {
    var n := CameraExample;
    forall l | 0 <= l <= |n| ensures !StampAt(PixelTag, '_', n, l) {
      AbsentTagNoStamp(PixelTag, '_', n, l);
    }
  }

  lemma CameraExampleFields()
    ensures StampAt(CameraTag, '_', CameraExample, 0)
    ensures StampFields(CameraTag, CameraExample, 0) == [2023, 13, 1, 0, 0, 0]
  {
    assert CameraExample == CameraTag + ("2023" + "13" + "01") + ['_'] + ("00" + "00" + "00") + ".jpg";
    AssembledFields(CameraTag, '_', "2023", "13", "01", "00", "00", "00", ".jpg");
    ExampleDigits();
  }

  /** An impossible day in the digits is raised, not turned into `None`. */
  lemma ImpossibleDayRaises()
    ensures ExtractDateFromTitle(PixelExample) == Raised(DayOutOfRange)
  {
    PixelExampleFields();
    PixelNameYieldsItsDigits(PixelExample, 0);
    InvalidGroupsRaise();
  }

  /** An impossible month is raised too, by the second convention. */
  lemma ImpossibleMonthRaises()
    ensures ExtractDateFromTitle(CameraExample) == Raised(MonthOutOfRange)
  {
    CameraExampleNotPixel();
    CameraExampleFields();
    CameraNameYieldsItsDigits(CameraExample, 0);
    InvalidGroupsRaise();
  }

  /** A year group with a leading zero gives a year below 1000, which `datetime` accepts. */
  const EarlyExample: string := "PXL_09990101_000000.jpg"

  lemma EarlyYearDigits()
    ensures Dec("0999") == 999
  {
    assert "0999"[..3] == "099" && "099"[..2] == "09" && "09"[..1] == "0" && "0"[..0] == [];
  }

  lemma EarlyExampleFields()
    ensures StampAt(PixelTag, '_', EarlyExample, 0)
    ensures StampFields(PixelTag, EarlyExample, 0) == [999, 1, 1, 0, 0, 0]
  {
    assert EarlyExample == PixelTag + ("0999" + "01" + "01") + ['_'] + ("00" + "00" + "00") + ".jpg";
    AssembledFields(PixelTag, '_', "0999", "01", "01", "00", "00", "00", ".jpg");
    ExampleDigits();
    EarlyYearDigits();
  }

  lemma EarlyYearAccepted()
    ensures ExtractDateFromTitle(EarlyExample) == Date(DateTime(999, 1, 1, 0, 0, 0))
  {
    EarlyExampleFields();
    PixelNameYieldsItsDigits(EarlyExample, 0);
    assert FromGroups([999, 1, 1, 0, 0, 0]) == Date(DateTime(999, 1, 1, 0, 0, 0));
  }
}

/**
 * The transcript formatter of the `POST /api/transcribe` handler: every segment
 * the provider returns becomes "(M:SS) text", where M:SS is the segment's start
 * floored to whole seconds, and the pieces are joined with single spaces in
 * provider order. Its partners are a label reader, a piece reader, and the
 * layout lemmas that locate every piece in the joined text.
 */
module Transcript {

  import opened Wrappers
  import opened Decimal

  /** A provider offset in seconds; the model covers non-negative offsets only. */
  type Seconds = r: real | r >= 0.0 witness 0.0

  /** One provider segment. `end` is part of the provider's reply but the formatter ignores it. */
  datatype Segment = Segment(start: Seconds, end: real, text: string)

  /** A minutes/seconds reading of a label. */
  datatype Clock = Clock(minutes: nat, seconds: nat)

  /** `Math.floor(start)`: the whole seconds elapsed at the segment's start. */
  function Timestamp(start: Seconds): (t: nat)
    ensures t as real <= start < t as real + 1.0
  {
    start.Floor
  }

  /** The seconds field of a label: `seconds.toString().padStart(2, '0')`. */
  function SecondsField(seconds: nat): string {
    PadStart(NatToString(seconds), 2, '0')
  }

  /** Splits whole seconds into minutes (`Math.floor(t / 60)`) and seconds (`t % 60`). */
  function ClockOf(t: nat): (c: Clock)
    ensures c.seconds < 60
    ensures c.minutes * 60 + c.seconds == t
  {
    Clock(t / 60, t % 60)
  }

  /** The text `(M:SS)` of a clock: minutes unpadded, seconds padded to two digits. */
  function Render(c: Clock): string {
    "(" + NatToString(c.minutes) + ":" + SecondsField(c.seconds) + ")"
  }

  /** The label of a whole-second timestamp. */
  function Label(t: nat): string {
    Render(ClockOf(t))
  }

  /**
   * Reads a label back: "(" then one or more digits, ":", exactly two digits, ")".
   * Minutes and seconds are returned as written, without range checks.
   */
  function ParseLabel(l: string): (c: Option<Clock>)
    ensures c.Some? ==> |l| >= 6 && l[0] == '(' && l[|l| - 4] == ':' && l[|l| - 1] == ')'
  {
    if |l| >= 6 && l[0] == '(' && l[|l| - 4] == ':' && l[|l| - 1] == ')'
       && AllDigits(l[1..|l| - 4]) && AllDigits(l[|l| - 3..|l| - 1])
    then Some(Clock(ParseDigits(l[1..|l| - 4]), ParseDigits(l[|l| - 3..|l| - 1])))
    else None
  }

  /**
   * A rendered clock whose seconds are below 100 is "(" + minutes + ":" + seconds + ")"
   * with the minutes field the canonical numeral of the minutes and the seconds
   * field exactly two digits denoting the seconds.
   */
  lemma RenderFields(c: Clock)
    requires c.seconds < 100
    ensures var m, ss := NatToString(c.minutes), SecondsField(c.seconds);
      && Render(c) == "(" + m + ":" + ss + ")"
      && Canonical(m) && ParseDigits(m) == c.minutes
      && |ss| == 2 && AllDigits(ss) && ParseDigits(ss) == c.seconds
      && |Render(c)| == |m| + 5
  {
    ParseNatToString(c.minutes);
    TwoDigitField(c.seconds);
  }

  /** Reading "(" + m + ":" + ss + ")" with digit fields m and ss gives their values. */
  lemma ParseLabelFields(m: string, ss: string)
    requires |m| >= 1 && AllDigits(m) && |ss| == 2 && AllDigits(ss)
    ensures ParseLabel("(" + m + ":" + ss + ")") == Some(Clock(ParseDigits(m), ParseDigits(ss)))
  {
    var l := "(" + m + ":" + ss + ")";
    assert |l| == |m| + 5;
    assert l[0] == '(' && l[|l| - 4] == ':' && l[|l| - 1] == ')';
    assert l[1..|l| - 4] == m;
    assert l[|l| - 3..|l| - 1] == ss;
    assert AllDigits(l[1..|l| - 4]) && AllDigits(l[|l| - 3..|l| - 1]);
  }

  /** Only the last character of "(" + m + ":" + ss + ")" is a ")" when m and ss are digits. */
  lemma LabelFieldsClose(m: string, ss: string)
    requires AllDigits(m) && AllDigits(ss)
    ensures var l := "(" + m + ":" + ss + ")";
      l[|l| - 1] == ')' && forall j :: 0 <= j < |l| - 1 ==> l[j] != ')'
  {
  }

  /** A rendered clock with seconds below 100 reads back as the same clock. */
  lemma RenderRoundTrip(c: Clock)
    requires c.seconds < 100
    ensures ParseLabel(Render(c)) == Some(c)
  {
    RenderFields(c);
    ParseLabelFields(NatToString(c.minutes), SecondsField(c.seconds));
  }

  /** A rendered clock with seconds below 100 is at least six characters long and closes with its only ")". */
  lemma RenderCloses(c: Clock)
    requires c.seconds < 100
    ensures |Render(c)| >= 6 && Render(c)[|Render(c)| - 1] == ')'
    ensures forall j :: 0 <= j < |Render(c)| - 1 ==> Render(c)[j] != ')'
  {
    RenderFields(c);
    LabelFieldsClose(NatToString(c.minutes), SecondsField(c.seconds));
  }

  /**
   * The label of `t` is "(" + minutes + ":" + seconds + ")", with the minutes
   * field the canonical (unpadded, not range-limited) numeral of t div 60, the seconds
   * field exactly two digits denoting t mod 60, which lies in 00..59, and the
   * two fields recombining to `t`.
   */
  lemma LabelFields(t: nat)
    ensures var m, ss := NatToString(t / 60), SecondsField(t % 60);
      && Label(t) == "(" + m + ":" + ss + ")"
      && Canonical(m) && ParseDigits(m) == t / 60
      && |ss| == 2 && AllDigits(ss) && ParseDigits(ss) == t % 60 < 60
      && ParseDigits(m) * 60 + ParseDigits(ss) == t
  {
    RenderFields(ClockOf(t));
  }

  /** Reading a label back recovers minutes and seconds, which recombine to the timestamp. */
  lemma LabelRoundTrip(t: nat)
    ensures ParseLabel(Label(t)) == Some(ClockOf(t))
    ensures ParseLabel(Label(t)).value.seconds < 60
    ensures ParseLabel(Label(t)).value.minutes * 60 + ParseLabel(Label(t)).value.seconds == t
  {
    RenderRoundTrip(ClockOf(t));
  }

  /** Distinct whole-second timestamps get distinct labels. */
  lemma LabelInjective(t: nat, u: nat)
    requires Label(t) == Label(u)
    ensures t == u
  {
    LabelRoundTrip(t);
    LabelRoundTrip(u);
  }

  /** The position of the first `c` in `s`, if any. */
  function IndexOf(s: string, c: char): (k: Option<nat>)
    ensures k.Some? ==> k.value < |s| && s[k.value] == c
                        && forall j :: 0 <= j < k.value ==> s[j] != c
    ensures k.None? ==> forall j :: 0 <= j < |s| ==> s[j] != c
    decreases |s|
  {
    if s == [] then None
    else if s[0] == c then Some(0)
    else match IndexOf(s[1..], c)
      case None => None
      case Some(k) => Some(k + 1)
  }

  /** The text the formatter produces for one segment: its label, one space, its text. */
  function Piece(seg: Segment): string {
    Label(Timestamp(seg.start)) + " " + seg.text
  }

  /**
   * Reads a piece back: the label is everything up to the first ")", which must
   * be followed by one space; the rest is the segment's text.
   */
  function ParsePiece(p: string): (r: Option<(Clock, string)>)
    ensures r.Some? ==> exists k :: 0 <= k && k + 2 <= |p| && p[k] == ')' && p[k + 1] == ' '
                                    && ParseLabel(p[..k + 1]) == Some(r.value.0)
                                    && r.value.1 == p[k + 2..]
  {
    match IndexOf(p, ')')
    case None => None
    case Some(k) =>
      if k + 1 < |p| && p[k + 1] == ' ' then
        match ParseLabel(p[..k + 1])
        case None => None
        case Some(c) => Some((c, p[k + 2..]))
      else None
  }

  /**
   * Each piece is the label of the floored start, then exactly one space, then
   * the segment's text unchanged; reading the piece back recovers the clock
   * and the text, whatever the text contains.
   */
  lemma PieceRoundTrip(seg: Segment)
    ensures var t := Timestamp(seg.start);
      && Piece(seg)[..|Label(t)|] == Label(t)
      && Piece(seg)[|Label(t)|] == ' '
      && Piece(seg)[|Label(t)| + 1..] == seg.text
      && ParsePiece(Piece(seg)) == Some((ClockOf(t), seg.text))
  {
    var c := ClockOf(Timestamp(seg.start));
    RenderCloses(c);
    RenderRoundTrip(c);
    ParseLabelSpaceText(Render(c), c, seg.text);
  }

  /** A label, one space and any text read back as the label's clock and the text. */
  lemma ParseLabelSpaceText(l: string, c: Clock, text: string)
    requires |l| >= 1 && l[|l| - 1] == ')' && forall j :: 0 <= j < |l| - 1 ==> l[j] != ')'
    requires ParseLabel(l) == Some(c)
    ensures (l + " " + text)[..|l|] == l
    ensures (l + " " + text)[|l|] == ' '
    ensures (l + " " + text)[|l| + 1..] == text
    ensures ParsePiece(l + " " + text) == Some((c, text))
  {
    IndexOfPrefix(l, " " + text, ')');
  }

  /** The first `c` in `s` is the first `c` in `s + rest` when `s` holds one. */
  lemma {:induction false} IndexOfPrefix(s: string, rest: string, c: char)
    requires |s| >= 1 && s[|s| - 1] == c && forall j :: 0 <= j < |s| - 1 ==> s[j] != c
    ensures IndexOf(s + rest, c) == Some(|s| - 1)
    decreases |s|
  {
    if |s| > 1 {
      assert (s + rest)[1..] == s[1..] + rest;
      IndexOfPrefix(s[1..], rest, c);
    }
  }

  /** `segments.map(...)`: one piece per segment, in provider order. */
  function Pieces(segs: seq<Segment>): (ps: seq<string>)
    ensures |ps| == |segs|
    ensures forall i :: 0 <= i < |segs| ==> ps[i] == Piece(segs[i])
  {
    if segs == [] then [] else [Piece(segs[0])] + Pieces(segs[1..])
  }

  /** `pieces.join(" ")`: "" for no pieces, otherwise the pieces with one space between neighbours. */
  function JoinWithSpaces(ps: seq<string>): string {
    if |ps| == 0 then ""
    else if |ps| == 1 then ps[0]
    else ps[0] + " " + JoinWithSpaces(ps[1..])
  }

  /** Total length of the pieces. */
  function TotalLength(ps: seq<string>): nat {
    if ps == [] then 0 else |ps[0]| + TotalLength(ps[1..])
  }

  /** Where piece `i` starts in the joined text: the pieces before it, each followed by its space. */
  function Offset(ps: seq<string>, i: nat): nat
    requires i <= |ps|
  {
    if i == 0 then 0 else |ps[0]| + 1 + Offset(ps[1..], i - 1)
  }

  /**
   * The joined text of n >= 1 pieces is as long as the pieces plus n - 1
   * separators; piece i sits unchanged at Offset(ps, i), and every piece but the
   * last is followed by a single space.
   */
  lemma {:induction false} JoinLayout(ps: seq<string>, i: nat)
    requires i < |ps|
    ensures |JoinWithSpaces(ps)| == TotalLength(ps) + |ps| - 1
    ensures Offset(ps, i) + |ps[i]| <= |JoinWithSpaces(ps)|
    ensures JoinWithSpaces(ps)[Offset(ps, i)..Offset(ps, i) + |ps[i]|] == ps[i]
    ensures i < |ps| - 1 ==> Offset(ps, i) + |ps[i]| < |JoinWithSpaces(ps)|
                             && JoinWithSpaces(ps)[Offset(ps, i) + |ps[i]|] == ' '
    decreases |ps|
  {
    var j := JoinWithSpaces(ps);
    if |ps| == 1 {
      assert j == ps[0];
      assert TotalLength(ps[1..]) == 0;
    } else {
      var rest := JoinWithSpaces(ps[1..]);
      assert j == ps[0] + " " + rest;
      JoinLayout(ps[1..], if i == 0 then 0 else i - 1);
      if i == 0 {
        assert j[..|ps[0]|] == ps[0];
      } else {
        var o := Offset(ps[1..], i - 1);
        assert Offset(ps, i) == |ps[0]| + 1 + o;
        assert j[|ps[0]| + 1..] == rest;
        assert rest[o..o + |ps[i]|] == ps[i];
      }
    }
  }

  /** Joining one more piece at the end appends a space and that piece. */
  lemma {:induction false} JoinSnoc(ps: seq<string>, p: string)
    requires |ps| >= 1
    ensures JoinWithSpaces(ps + [p]) == JoinWithSpaces(ps) + " " + p
    decreases |ps|
  {
    if |ps| > 1 {
      assert (ps + [p])[1..] == ps[1..] + [p];
      JoinSnoc(ps[1..], p);
    }
  }

  /**
   * `transcription.segments?.map(...).join(" ")`: a missing segment list gives
   * no text (undefined), an empty one gives "", otherwise the joined pieces.
   */
  function FormatTranscript(segments: Option<seq<Segment>>): (r: Option<string>)
    ensures r.None? <==> segments.None?
    ensures segments == Some([]) ==> r == Some("")
  {
    match segments
    case None => None
    case Some(segs) => Some(JoinWithSpaces(Pieces(segs)))
  }

  /** `out` holds, from offset `o`, the label `l`, one space and `text`. */
  predicate PieceAt(out: string, o: nat, l: string, text: string) {
    && o + |l| + 1 + |text| <= |out|
    && out[o..o + |l|] == l
    && out[o + |l|] == ' '
    && out[o + |l| + 1..o + |l| + 1 + |text|] == text
  }

  /**
   * For n >= 1 segments, the transcript holds n pieces in provider order: piece i
   * starts at its offset with the label of segment i's floored start, one space
   * and segment i's text; a single space follows every piece but the last; and
   * the text is as long as the pieces plus the n - 1 spaces.
   */
  lemma FormatLayout(segs: seq<Segment>, i: nat)
    requires i < |segs|
    ensures var out, ps := FormatTranscript(Some(segs)).value, Pieces(segs);
      && |out| == TotalLength(ps) + |segs| - 1
      && PieceAt(out, Offset(ps, i), Label(Timestamp(segs[i].start)), segs[i].text)
      && (i < |segs| - 1 ==> Offset(ps, i) + |ps[i]| < |out| && out[Offset(ps, i) + |ps[i]|] == ' ')
  {
    var ps := Pieces(segs);
    JoinLayout(ps, i);
    JoinPieceAt(ps, i, Label(Timestamp(segs[i].start)), segs[i].text);
  }

  /** Where piece `i` of a join is `l + " " + text`, `l`, the space and `text` sit at its offset. */
  lemma JoinPieceAt(ps: seq<string>, i: nat, l: string, text: string)
    requires i < |ps| && ps[i] == l + " " + text
    ensures PieceAt(JoinWithSpaces(ps), Offset(ps, i), l, text)
  {
    JoinLayout(ps, i);
    SplitPiece(JoinWithSpaces(ps), Offset(ps, i), l, text);
  }

  /** A copy of `l + " " + text` at offset `o` of `whole` holds `l`, the space and `text` there. */
  lemma SplitPiece(whole: string, o: nat, l: string, text: string)
    requires o + |l| + 1 + |text| <= |whole|
    requires whole[o..o + |l| + 1 + |text|] == l + " " + text
    ensures PieceAt(whole, o, l, text)
  {
    var n := |l| + 1 + |text|;
    var part := whole[o..o + n];
    assert whole[o..o + |l|] == part[..|l|];
    assert whole[o + |l|] == part[|l|];
    assert whole[o + |l| + 1..o + n] == part[|l| + 1..];
  }

  /** Formatting one more segment appends a space and that segment's piece: order is kept. */
  lemma FormatAppend(segs: seq<Segment>, seg: Segment)
    requires |segs| >= 1
    ensures FormatTranscript(Some(segs + [seg])).value
            == FormatTranscript(Some(segs)).value + " " + Piece(seg)
  {
    assert Pieces(segs + [seg]) == Pieces(segs) + [Piece(seg)];
    JoinSnoc(Pieces(segs), Piece(seg));
  }

  /** The formatter reads only each segment's start and text, never its end. */
  lemma FormatIgnoresEnd(segs: seq<Segment>, other: seq<Segment>)
    requires |segs| == |other|
    requires forall i :: 0 <= i < |segs| ==> segs[i].start == other[i].start && segs[i].text == other[i].text
    ensures FormatTranscript(Some(segs)) == FormatTranscript(Some(other))
  {
    assert Pieces(segs) == Pieces(other);
  }

  /** Fractional seconds are dropped and the seconds are padded: 65.9 s is labelled (1:05). */
  lemma LabelOfFractionalStart()
    ensures Label(Timestamp(65.9)) == "(1:05)"
  {
    assert Timestamp(65.9) == 65;
  }

  /** 125 s is labelled (2:05); minutes are not bounded: 3600 s is labelled (60:00). */
  lemma LabelExamples()
    ensures Label(125) == "(2:05)"
    ensures Label(3600) == "(60:00)"
  {
    assert ClockOf(125) == Clock(2, 5);
    assert NatToString(2) == "2" && SecondsField(5) == "05";
    assert ClockOf(3600) == Clock(60, 0);
    assert NatToString(6) == "6" && NatToString(60) == "60" && SecondsField(0) == "00";
  }

  /** Two segments starting at 0 s and 65 s give "(0:00) hi (1:05) there". */
  lemma FormatExample()
    ensures FormatTranscript(Some([Segment(0.0, 2.0, "hi"), Segment(65.0, 70.0, "there")]))
            == Some("(0:00) hi (1:05) there")
  {
    assert Timestamp(0.0) == 0;
    assert Timestamp(65.0) == 65;
    assert Label(0) == "(0:00)";
    assert Label(65) == "(1:05)";
    var hi, there := Segment(0.0, 2.0, "hi"), Segment(65.0, 70.0, "there");
    assert Piece(hi) == "(0:00) hi";
    assert Piece(there) == "(1:05) there";
    assert Pieces([hi, there]) == ["(0:00) hi", "(1:05) there"];
    assert JoinWithSpaces(["(0:00) hi", "(1:05) there"]) == "(0:00) hi (1:05) there";
  }
}

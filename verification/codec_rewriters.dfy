/** The three allocator-based section rewriters `enableStereoPcmau`,
    `enableMultichannelOpus` and `enableL16`. Each one repeats, per codec,
    the same steps: allocate a free payload type from line 0, append it to
    line 0, and insert the codec's attribute lines just before the final
    line. Here that step is written once and driven by a codec table. */
module CodecRewriters {
  import opened Results
  import opened Strings
  import opened PayloadTypes

  /** One codec the rewriter adds: the `a=rtpmap` encoding and an optional
      `a=fmtp` parameter string. */
  datatype CodecEntry = CodecEntry(encoding: string, fmtp: Option<string>)

  /** The attribute lines written for `e` under payload type `pt`:
      rtpmap, then fmtp when present, then the transport-cc feedback line. */
  function EntryLines(pt: nat, e: CodecEntry): seq<string> {
    var p := NatToString(pt);
    ["a=rtpmap:" + p + " " + e.encoding]
    + (match e.fmtp case Some(f) => ["a=fmtp:" + p + " " + f] case None => [])
    + ["a=rtcp-fb:" + p + " transport-cc"]
  }

  const PcmauEntries: seq<CodecEntry> := [
    CodecEntry("PCMU/8000/2", None),
    CodecEntry("PCMA/8000/2", None)
  ]

  /** The fmtp parameters of one multiopus layout. */
  function MultiopusFmtp(channelMapping: string, streams: string, coupledStreams: string): string {
    "channel_mapping=" + channelMapping + ";num_streams=" + streams + ";coupled_streams=" + coupledStreams
  }

  const MultiopusEntries: seq<CodecEntry> := [
    CodecEntry("multiopus/48000/3", Some(MultiopusFmtp("0,2,1", "2", "1"))),
    CodecEntry("multiopus/48000/4", Some(MultiopusFmtp("0,1,2,3", "2", "2"))),
    CodecEntry("multiopus/48000/5", Some(MultiopusFmtp("0,4,1,2,3", "3", "2"))),
    CodecEntry("multiopus/48000/6", Some(MultiopusFmtp("0,4,1,2,3,5", "4", "2"))),
    CodecEntry("multiopus/48000/7", Some(MultiopusFmtp("0,4,1,2,3,5,6", "4", "4"))),
    CodecEntry("multiopus/48000/8", Some(MultiopusFmtp("0,6,1,4,5,2,3,7", "5", "4")))
  ]

  const L16Entries: seq<CodecEntry> := [
    CodecEntry("L16/8000/2", None),
    CodecEntry("L16/16000/2", None),
    CodecEntry("L16/48000/2", None)
  ]

  /** `lines.splice(lines.length - 1, 0, x)`. In a one-line section the
      media line is itself the last line, so `x` goes in front of it. */
  function InsertBeforeLast(lines: seq<string>, x: string): seq<string>
    requires |lines| >= 1
  {
    lines[..|lines| - 1] + [x] + [lines[|lines| - 1]]
  }

  /** One splice per element of `xs`, in order. */
  function InsertAllBeforeLast(lines: seq<string>, xs: seq<string>): (r: seq<string>)
    requires |lines| >= 1
    decreases |xs|
    ensures |r| == |lines| + |xs|
  {
    if xs == [] then lines
    else InsertAllBeforeLast(InsertBeforeLast(lines, xs[0]), xs[1..])
  }

  /** Successive splices before the last line keep the inserted lines in
      order, all between the old body and the old last line. */
  lemma {:induction false} InsertAllShape(lines: seq<string>, xs: seq<string>)
    requires |lines| >= 1
    ensures InsertAllBeforeLast(lines, xs) == lines[..|lines| - 1] + xs + [lines[|lines| - 1]]
    decreases |xs|
  {
    if xs != [] {
      var next := InsertBeforeLast(lines, xs[0]);
      InsertAllShape(next, xs[1..]);
      assert next[..|next| - 1] == lines[..|lines| - 1] + [xs[0]];
      assert xs == [xs[0]] + xs[1..];
    }
  }

  /** One codec: allocate from line 0, append the value to line 0, insert
      the codec's lines before the final line. */
  function AddEntry(lines: seq<string>, e: CodecEntry): (r: Result<seq<string>>)
    requires |lines| >= 1
    ensures r.Ok? ==> |r.value| == |lines| + |EntryLines(0, e)|
  {
    match FindFreePayloadType(lines[0])
    case Err(m) => Err(m)
    case Ok(pt) =>
      Ok(InsertAllBeforeLast(lines[0 := lines[0] + " " + NatToString(pt)], EntryLines(pt, e)))
  }

  function AddEntries(lines: seq<string>, es: seq<CodecEntry>): (r: Result<seq<string>>)
    requires |lines| >= 1
    decreases |es|
    ensures r.Ok? ==> |r.value| >= |lines|
  {
    if es == [] then Ok(lines)
    else
      match AddEntry(lines, es[0])
      case Err(m) => Err(m)
      case Ok(next) => AddEntries(next, es[1..])
  }

  /** Split the section into lines, add every codec of `es`, join again. */
  function AddCodecs(section: string, es: seq<CodecEntry>): Result<string> {
    match AddEntries(Split(section, CRLF), es)
    case Err(m) => Err(m)
    case Ok(lines) => Ok(Join(lines, CRLF))
  }

  function EnableStereoPcmau(section: string): Result<string> {
    AddCodecs(section, PcmauEntries)
  }

  function EnableMultichannelOpus(section: string): Result<string> {
    AddCodecs(section, MultiopusEntries)
  }

  function EnableL16(section: string): Result<string> {
    AddCodecs(section, L16Entries)
  }

  /** The only way a rewriter fails is by running out of payload types. */
  lemma AddCodecsError(section: string, es: seq<CodecEntry>)
    ensures AddCodecs(section, es).Err? ==> AddCodecs(section, es).message == NoFreePayloadType
  {
    AddEntriesError(Split(section, CRLF), es);
  }

  lemma {:induction false} AddEntriesError(lines: seq<string>, es: seq<CodecEntry>)
    requires |lines| >= 1
    ensures AddEntries(lines, es).Err? ==> AddEntries(lines, es).message == NoFreePayloadType
    decreases |es|
  {
    if es != [] {
      match AddEntry(lines, es[0])
      case Err(_) =>
      case Ok(next) => AddEntriesError(next, es[1..]);
    }
  }

  // ---------------------------------------------------------------------
  // Reference shape of a rewritten section

  /** " pt1 pt2 ..." as appended to line 0. */
  function PtSuffix(pts: seq<nat>): string
    decreases |pts|
  {
    if pts == [] then "" else " " + NatToString(pts[0]) + PtSuffix(pts[1..])
  }

  function Rendered(pts: seq<nat>): seq<string>
    decreases |pts|
  {
    if pts == [] then [] else [NatToString(pts[0])] + Rendered(pts[1..])
  }

  function AllEntryLines(pts: seq<nat>, es: seq<CodecEntry>): seq<string>
    requires |pts| == |es|
    decreases |es|
  {
    if es == [] then [] else EntryLines(pts[0], es[0]) + AllEntryLines(pts[1..], es[1..])
  }

  /** A media section: a media line with at least `<media> <port> <proto>`,
      and at least one further line (the empty one after the final CRLF).
      A one-line section, where the codec lines land before the media line,
      is outside the shape lemmas but still rewritten as the code does. */
  predicate MediaLines(lines: seq<string>) {
    |lines| >= 2 && |Split(lines[0], " ")| >= 3
  }

  /** The section `lines` after the codecs `es` received payload types `pts`. */
  function Rewritten(lines: seq<string>, pts: seq<nat>, es: seq<CodecEntry>): seq<string>
    requires MediaLines(lines) && |pts| == |es|
  {
    [lines[0] + PtSuffix(pts)] + lines[1..|lines| - 1] + AllEntryLines(pts, es) + [lines[|lines| - 1]]
  }

  lemma DigitsHaveNoSpace(n: nat)
    ensures !Contains(NatToString(n), " ")
  {
    var p := NatToString(n);
    assert forall j :: 0 <= j <= |p| && OccursAt(p, " ", j) ==> p[j] == ' ';
  }

  /** Appending " pt" to the media line appends one token to its format list. */
  lemma AppendToken(l0: string, pt: nat)
    requires |Split(l0, " ")| >= 3
    ensures Split(l0 + " " + NatToString(pt), " ") == Split(l0, " ") + [NatToString(pt)]
    ensures FormatList(l0 + " " + NatToString(pt)) == FormatList(l0) + [NatToString(pt)]
  {
    SplitAppend(l0, " ", NatToString(pt));
    DigitsHaveNoSpace(pt);
    SplitNoSeparator(NatToString(pt), " ");
    var t := Split(l0, " ");
    assert (t + [NatToString(pt)])[3..] == t[3..] + [NatToString(pt)];
  }

  /** A media line of at most three tokens lists no formats, so the
      allocation from it always yields the lowest dynamic payload type. */
  lemma ShortMediaLineStep(lines: seq<string>, e: CodecEntry)
    requires |lines| >= 1 && FormatList(lines[0]) == []
    ensures var p := NatToString(MinDynamic);
      AddEntry(lines, e) == Ok(InsertAllBeforeLast(lines[0 := lines[0] + " " + p], EntryLines(MinDynamic, e)))
  {
  }

  /** On a media line of only two tokens (`m=audio 9`, say) the value
      appended by the first codec sits at the third token, which the format
      list skips: the second codec gets the same payload type, and the
      line ends in `96 96`. */
  lemma ShortMediaLineRepeats(lines: seq<string>, e1: CodecEntry, e2: CodecEntry)
    requires |lines| >= 2 && |Split(lines[0], " ")| == 2
    ensures var p := NatToString(MinDynamic);
      && AddEntries(lines, [e1, e2]).Ok?
      && AddEntries(lines, [e1, e2]).value[0] == lines[0] + " " + p + " " + p
  {
    var p := NatToString(MinDynamic);
    assert FormatList(lines[0]) == [];
    ShortMediaLineStep(lines, e1);
    var next := InsertAllBeforeLast(lines[0 := lines[0] + " " + p], EntryLines(MinDynamic, e1));
    InsertAllShape(lines[0 := lines[0] + " " + p], EntryLines(MinDynamic, e1));
    assert next[0] == lines[0] + " " + p;
    SplitAppend(lines[0], " ", p);
    DigitsHaveNoSpace(MinDynamic);
    SplitNoSeparator(p, " ");
    assert |Split(next[0], " ")| == 3;
    assert FormatList(next[0]) == [];
    ShortMediaLineStep(next, e2);
    var last := InsertAllBeforeLast(next[0 := next[0] + " " + p], EntryLines(MinDynamic, e2));
    InsertAllShape(next[0 := next[0] + " " + p], EntryLines(MinDynamic, e2));
    assert last[0] == next[0] + " " + p;
    assert [e1, e2][1..] == [e2];
    assert AddEntries(next, [e2]) == AddEntries(last, []);
  }

  /** The stereo PCMU/PCMA rewrite of a section whose media line is just
      `m=audio 9` writes the payload type 96 twice. */
  lemma ShortAudioLineExample()
    ensures AddEntries(["m=audio 9", ""], PcmauEntries).Ok?
    ensures AddEntries(["m=audio 9", ""], PcmauEntries).value[0] == "m=audio 9 96 96"
  {
    var lines := ["m=audio 9", ""];
    TwoTokenAudioLine();
    var es := PcmauEntries;
    assert es == [es[0], es[1]];
    ShortMediaLineRepeats(lines, es[0], es[1]);
    LowestDynamicText();
    DoubledAudioLineText();
  }

  lemma DoubledAudioLineText()
    ensures "m=audio 9" + " " + "96" + " " + "96" == "m=audio 9 96 96"
  {
  }

  lemma TwoTokenAudioLine()
    ensures Split("m=audio 9", " ") == ["m=audio", "9"]
  {
    assert "m=audio 9" == "m=audio" + " " + "9";
    SplitAppend("m=audio", " ", "9");
    SpaceFree("m=audio");
    SpaceFree("9");
    SplitNoSeparator("m=audio", " ");
    SplitNoSeparator("9", " ");
  }

  lemma LowestDynamicText()
    ensures NatToString(MinDynamic) == "96"
  {
  }

  lemma SpaceFree(s: string)
    requires ' ' !in s
    ensures !Contains(s, " ")
  {
    assert forall j :: 0 <= j <= |s| && OccursAt(s, " ", j) ==> s[j] == ' ';
  }

  lemma EntryLinesLength(pt: nat, e: CodecEntry)
    ensures |EntryLines(pt, e)| == |EntryLines(0, e)|
  {
  }

  /** One step of `AddEntries` in reference form. */
  lemma AddEntryShape(lines: seq<string>, e: CodecEntry)
    requires MediaLines(lines)
    ensures AddEntry(lines, e).Ok? <==> FirstFreeFrom(FormatList(lines[0]), MinDynamic).Ok?
    ensures AddEntry(lines, e).Ok? ==>
      var pt := FirstFreeFrom(FormatList(lines[0]), MinDynamic).value;
      var next := AddEntry(lines, e).value;
      && next == [lines[0] + " " + NatToString(pt)] + lines[1..|lines| - 1]
                 + EntryLines(pt, e) + [lines[|lines| - 1]]
      && MediaLines(next)
      && FormatList(next[0]) == FormatList(lines[0]) + [NatToString(pt)]
  {
    match FindFreePayloadType(lines[0])
    case Err(_) =>
    case Ok(pt) =>
      var l0 := lines[0] + " " + NatToString(pt);
      var updated := lines[0 := l0];
      InsertAllShape(updated, EntryLines(pt, e));
      assert updated[..|updated| - 1] == [l0] + lines[1..|lines| - 1];
      AppendToken(lines[0], pt);
  }

  /** Rewriting `lines` with `pt` first and then `rest` is rewriting the
      once-rewritten `next` with `rest`. */
  lemma RewrittenStep(lines: seq<string>, pt: nat, rest: seq<nat>, es: seq<CodecEntry>, next: seq<string>)
    requires MediaLines(lines) && |es| >= 1 && |rest| == |es| - 1
    requires next == [lines[0] + " " + NatToString(pt)] + lines[1..|lines| - 1]
                     + EntryLines(pt, es[0]) + [lines[|lines| - 1]]
    requires MediaLines(next)
    ensures Rewritten(next, rest, es[1..]) == Rewritten(lines, [pt] + rest, es)
  {
    var n := |lines|;
    var pts := [pt] + rest;
    var m := lines[1..n - 1];
    var e := EntryLines(pt, es[0]);
    var r := AllEntryLines(rest, es[1..]);
    assert pts[1..] == rest;
    assert AllEntryLines(pts, es) == e + r;
    FramedParts(lines[0] + " " + NatToString(pt), m + e, lines[n - 1]);
    assert next == [lines[0] + " " + NatToString(pt)] + (m + e) + [lines[n - 1]];
    HeadSuffixStep(lines[0], pt, rest);
    var a := [lines[0] + PtSuffix(pts)];
    assert a + (m + e) + r + [lines[n - 1]] == a + m + (e + r) + [lines[n - 1]];
  }

  lemma HeadSuffixStep(l0: string, pt: nat, rest: seq<nat>)
    ensures (l0 + " " + NatToString(pt)) + PtSuffix(rest) == l0 + PtSuffix([pt] + rest)
  {
    var pts := [pt] + rest;
    assert pts[0] == pt && pts[1..] == rest;
    assert PtSuffix(pts) == " " + NatToString(pt) + PtSuffix(rest);
  }

  /** The parts of a sequence framed by a first and a last element. */
  lemma FramedParts<T>(x: T, middle: seq<T>, y: T)
    ensures var s := [x] + middle + [y];
      && s[0] == x && s[|s| - 1] == y && s[1..|s| - 1] == middle
  {
    var s := [x] + middle + [y];
    assert s[1..|s| - 1] == middle;
  }

  lemma RenderedStep(formats: seq<string>, pt: nat, rest: seq<nat>)
    ensures (formats + [NatToString(pt)]) + Rendered(rest) == formats + Rendered([pt] + rest)
  {
    assert ([pt] + rest)[1..] == rest;
  }

  /** The whole codec table in reference form: `AddEntries` succeeds exactly
      when `Allocate` does, line 0 gains the allocated values in allocation
      order, the codec lines are inserted before the last line in table
      order, and every other line is kept in place. */
  lemma {:induction false} AddEntriesShape(lines: seq<string>, es: seq<CodecEntry>)
    requires MediaLines(lines)
    ensures AddEntries(lines, es).Ok? <==> Allocate(FormatList(lines[0]), |es|).Ok?
    ensures AddEntries(lines, es).Ok? ==>
      var pts := Allocate(FormatList(lines[0]), |es|).value;
      && AddEntries(lines, es).value == Rewritten(lines, pts, es)
      && FormatList(AddEntries(lines, es).value[0]) == FormatList(lines[0]) + Rendered(pts)
      && MediaLines(AddEntries(lines, es).value)
    decreases |es|
  {
    var n := |lines|;
    if es == [] {
      assert lines[0] + "" == lines[0];
      assert lines == [lines[0]] + lines[1..n - 1] + [lines[n - 1]];
      assert Rewritten(lines, [], es) == [lines[0]] + lines[1..n - 1] + [] + [lines[n - 1]];
      assert FormatList(lines[0]) + [] == FormatList(lines[0]);
    } else {
      AddEntryShape(lines, es[0]);
      match FirstFreeFrom(FormatList(lines[0]), MinDynamic)
      case Err(_) =>
      case Ok(pt) =>
        var next := AddEntry(lines, es[0]).value;
        var grown := FormatList(lines[0]) + [NatToString(pt)];
        AddEntriesShape(next, es[1..]);
        if AddEntries(next, es[1..]).Ok? {
          var rest := Allocate(grown, |es| - 1).value;
          assert Allocate(FormatList(lines[0]), |es|) == Ok([pt] + rest);
          RewrittenStep(lines, pt, rest, es, next);
          RenderedStep(FormatList(lines[0]), pt, rest);
        }
    }
  }

  // ---------------------------------------------------------------------
  // The rewriters on section text

  /** The codec table's strings are single-line text. */
  predicate EntryOk(e: CodecEntry) {
    '\n' !in e.encoding && (e.fmtp.Some? ==> '\n' !in e.fmtp.value)
  }

  predicate LinesFree(lines: seq<string>) {
    forall k :: 0 <= k < |lines| ==> !Contains(lines[k], CRLF)
  }

  lemma PtSuffixSingleLine(pts: seq<nat>)
    ensures '\n' !in PtSuffix(pts)
    decreases |pts|
  {
    if pts != [] {
      PtSuffixSingleLine(pts[1..]);
    }
  }

  lemma EntryLinesFree(pt: nat, e: CodecEntry)
    requires EntryOk(e)
    ensures LinesFree(EntryLines(pt, e))
  {
    var ls := EntryLines(pt, e);
    forall k | 0 <= k < |ls|
      ensures !Contains(ls[k], CRLF)
    {
      NoLineFeedFree(ls[k]);
    }
  }

  lemma {:induction false} AllEntryLinesFree(pts: seq<nat>, es: seq<CodecEntry>)
    requires |pts| == |es|
    requires forall i :: 0 <= i < |es| ==> EntryOk(es[i])
    ensures LinesFree(AllEntryLines(pts, es))
    decreases |es|
  {
    if es != [] {
      EntryLinesFree(pts[0], es[0]);
      AllEntryLinesFree(pts[1..], es[1..]);
    }
  }

  lemma RewrittenFree(lines: seq<string>, pts: seq<nat>, es: seq<CodecEntry>)
    requires MediaLines(lines) && |pts| == |es| && LinesFree(lines)
    requires forall i :: 0 <= i < |es| ==> EntryOk(es[i])
    ensures LinesFree(Rewritten(lines, pts, es))
  {
    PtSuffixSingleLine(pts);
    AppendKeepsFree(lines[0], PtSuffix(pts), CRLF);
    AllEntryLinesFree(pts, es);
  }

  /** A rewriter on section text: it fails exactly when the allocations
      fail, and on success the result re-splits into the reference shape. */
  lemma AddCodecsShape(section: string, es: seq<CodecEntry>)
    requires MediaLines(Split(section, CRLF))
    requires forall i :: 0 <= i < |es| ==> EntryOk(es[i])
    ensures var lines := Split(section, CRLF);
      AddCodecs(section, es).Ok? <==> Allocate(FormatList(lines[0]), |es|).Ok?
    ensures var lines := Split(section, CRLF);
      AddCodecs(section, es).Ok? ==>
        var pts := Allocate(FormatList(lines[0]), |es|).value;
        var out := Split(AddCodecs(section, es).value, CRLF);
        && out == Rewritten(lines, pts, es)
        && FormatList(out[0]) == FormatList(lines[0]) + Rendered(pts)
        && MediaLines(out)
  {
    var lines := Split(section, CRLF);
    AddEntriesShape(lines, es);
    var r := AddEntries(lines, es);
    if r.Ok? {
      var pts := Allocate(FormatList(lines[0]), |es|).value;
      var out := Rewritten(lines, pts, es);
      assert r.value == out;
      assert AddCodecs(section, es) == Ok(Join(out, CRLF));
      RewrittenFree(lines, pts, es);
      SeparatorsBorderless();
      SplitJoin(out, CRLF);
    }
  }

  /** Adding two codec lists one after the other is adding their
      concatenation, on the line level. */
  lemma {:induction false} AddEntriesConcat(lines: seq<string>, es1: seq<CodecEntry>, es2: seq<CodecEntry>)
    requires |lines| >= 1
    ensures AddEntries(lines, es1 + es2)
      == match AddEntries(lines, es1)
         case Err(m) => Err(m)
         case Ok(next) => AddEntries(next, es2)
    decreases |es1|
  {
    if es1 == [] {
      assert es1 + es2 == es2;
    } else {
      assert (es1 + es2)[0] == es1[0];
      assert (es1 + es2)[1..] == es1[1..] + es2;
      match AddEntry(lines, es1[0])
      case Err(_) =>
      case Ok(next) => AddEntriesConcat(next, es1[1..], es2);
    }
  }

  /** An empty codec list leaves the section text as it was. */
  lemma AddCodecsNone(section: string)
    ensures AddCodecs(section, []) == Ok(section)
  {
    JoinSplit(section, CRLF);
  }

  /** Running the rewriter for `es1` and then the one for `es2` on its
      output is the rewriter for `es1 + es2`: the intermediate text
      re-splits into the lines the first rewriter produced. */
  lemma AddCodecsConcat(section: string, es1: seq<CodecEntry>, es2: seq<CodecEntry>)
    requires MediaLines(Split(section, CRLF))
    requires forall i :: 0 <= i < |es1| ==> EntryOk(es1[i])
    ensures AddCodecs(section, es1 + es2)
      == match AddCodecs(section, es1)
         case Err(m) => Err(m)
         case Ok(mid) => AddCodecs(mid, es2)
  {
    var lines := Split(section, CRLF);
    AddEntriesConcat(lines, es1, es2);
    AddEntriesShape(lines, es1);
    AddCodecsShape(section, es1);
  }

  lemma MultiopusFmtpOk(channelMapping: string, streams: string, coupledStreams: string)
    requires '\n' !in channelMapping && '\n' !in streams && '\n' !in coupledStreams
    ensures '\n' !in MultiopusFmtp(channelMapping, streams, coupledStreams)
  {
  }

  lemma PcmauTableOk()
    ensures forall i :: 0 <= i < |PcmauEntries| ==> EntryOk(PcmauEntries[i])
  {
  }

  lemma L16TableOk()
    ensures forall i :: 0 <= i < |L16Entries| ==> EntryOk(L16Entries[i])
  {
  }

  lemma MultiopusTableOk()
    ensures forall i :: 0 <= i < |MultiopusEntries| ==> EntryOk(MultiopusEntries[i])
  {
    MultiopusFmtpOk("0,2,1", "2", "1");
    MultiopusFmtpOk("0,1,2,3", "2", "2");
    MultiopusFmtpOk("0,4,1,2,3", "3", "2");
    MultiopusFmtpOk("0,4,1,2,3,5", "4", "2");
    MultiopusFmtpOk("0,4,1,2,3,5,6", "4", "4");
    MultiopusFmtpOk("0,6,1,4,5,2,3,7", "5", "4");
    assert EntryOk(MultiopusEntries[0]);
    assert EntryOk(MultiopusEntries[1]);
    assert EntryOk(MultiopusEntries[2]);
    assert EntryOk(MultiopusEntries[3]);
    assert EntryOk(MultiopusEntries[4]);
    assert EntryOk(MultiopusEntries[5]);
  }

  /** `enableStereoPcmau`: two increasing free payload types, PCMU/8000/2
      on the first and PCMA/8000/2 on the second, four lines inserted before
      the final line, everything else in place. */
  lemma EnableStereoPcmauShape(section: string)
    requires MediaLines(Split(section, CRLF))
    ensures var lines := Split(section, CRLF);
      EnableStereoPcmau(section).Ok? <==> Allocate(FormatList(lines[0]), 2).Ok?
    ensures var lines := Split(section, CRLF);
      var n := |lines|;
      Allocate(FormatList(lines[0]), 2).Ok? ==>
        var pts := Allocate(FormatList(lines[0]), 2).value;
        var u, a := NatToString(pts[0]), NatToString(pts[1]);
        && pts[0] < pts[1]
        && EnableStereoPcmau(section).Ok?
        && Split(EnableStereoPcmau(section).value, CRLF)
           == [lines[0] + " " + u + " " + a] + lines[1..n - 1]
              + ["a=rtpmap:" + u + " PCMU/8000/2", "a=rtcp-fb:" + u + " transport-cc",
                 "a=rtpmap:" + a + " PCMA/8000/2", "a=rtcp-fb:" + a + " transport-cc"]
              + [lines[n - 1]]
  {
    PcmauTableOk();
    AddCodecsShape(section, PcmauEntries);
    var lines := Split(section, CRLF);
    if EnableStereoPcmau(section).Ok? {
      var pts := Allocate(FormatList(lines[0]), 2).value;
      PcmauLines(pts);
      var u, a := NatToString(pts[0]), NatToString(pts[1]);
      HeaderAppend2(lines[0], u, a);
    }
  }

  lemma HeaderAppend2(h: string, u: string, a: string)
    ensures h + (" " + u + " " + a) == h + " " + u + " " + a
  {
  }

  lemma PcmauLines(pts: seq<nat>)
    requires |pts| == 2
    ensures var u, a := NatToString(pts[0]), NatToString(pts[1]);
      && PtSuffix(pts) == " " + u + " " + a
      && AllEntryLines(pts, PcmauEntries)
         == ["a=rtpmap:" + u + " PCMU/8000/2", "a=rtcp-fb:" + u + " transport-cc",
             "a=rtpmap:" + a + " PCMA/8000/2", "a=rtcp-fb:" + a + " transport-cc"]
  {
    TwoEntries(pts, PcmauEntries);
    var u, a := NatToString(pts[0]), NatToString(pts[1]);
    PcmauSpaced();
    SpaceThen("a=rtpmap:" + u, PcmauEntries[0].encoding, " PCMU/8000/2");
    SpaceThen("a=rtpmap:" + a, PcmauEntries[1].encoding, " PCMA/8000/2");
  }

  lemma SpaceThen(h: string, t: string, spaced: string)
    requires spaced == " " + t
    ensures h + " " + t == h + spaced
  {
  }

  lemma PcmauSpaced()
    ensures " " + PcmauEntries[0].encoding == " PCMU/8000/2"
    ensures " " + PcmauEntries[1].encoding == " PCMA/8000/2"
  {
  }

  lemma L16Spaced()
    ensures " " + L16Entries[0].encoding == " L16/8000/2"
    ensures " " + L16Entries[1].encoding == " L16/16000/2"
    ensures " " + L16Entries[2].encoding == " L16/48000/2"
  {
  }

  lemma TwoEntries(pts: seq<nat>, es: seq<CodecEntry>)
    requires |pts| == 2 && |es| == 2 && es[0].fmtp.None? && es[1].fmtp.None?
    ensures PtSuffix(pts) == " " + NatToString(pts[0]) + " " + NatToString(pts[1])
    ensures AllEntryLines(pts, es)
      == ["a=rtpmap:" + NatToString(pts[0]) + " " + es[0].encoding,
          "a=rtcp-fb:" + NatToString(pts[0]) + " transport-cc",
          "a=rtpmap:" + NatToString(pts[1]) + " " + es[1].encoding,
          "a=rtcp-fb:" + NatToString(pts[1]) + " transport-cc"]
  {
    assert pts[1..][0] == pts[1] && pts[1..][1..] == [];
    assert es[1..][0] == es[1] && es[1..][1..] == [];
    var p, q := NatToString(pts[0]), NatToString(pts[1]);
    assert PtSuffix(pts[1..]) == " " + q + "";
    assert " " + q + "" == " " + q;
    assert EntryLines(pts[0], es[0]) == ["a=rtpmap:" + p + " " + es[0].encoding, "a=rtcp-fb:" + p + " transport-cc"];
    assert EntryLines(pts[1], es[1]) == ["a=rtpmap:" + q + " " + es[1].encoding, "a=rtcp-fb:" + q + " transport-cc"];
    assert AllEntryLines(pts[1..], es[1..]) == EntryLines(pts[1], es[1]) + [];
  }

  /** `enableMultichannelOpus`: six increasing free payload types carrying
      multiopus with 3, 4, 5, 6, 7 and 8 channels in that order, each with
      its fmtp line, eighteen lines inserted before the final line. */
  lemma EnableMultichannelOpusShape(section: string)
    requires MediaLines(Split(section, CRLF))
    ensures var lines := Split(section, CRLF);
      EnableMultichannelOpus(section).Ok? <==> Allocate(FormatList(lines[0]), 6).Ok?
    ensures var lines := Split(section, CRLF);
      EnableMultichannelOpus(section).Ok? ==>
        var pts := Allocate(FormatList(lines[0]), 6).value;
        var out := Split(EnableMultichannelOpus(section).value, CRLF);
        && out == Rewritten(lines, pts, MultiopusEntries)
        && |out| == |lines| + 18
        && FormatList(out[0]) == FormatList(lines[0]) + Rendered(pts)
  {
    MultiopusTableOk();
    AddCodecsShape(section, MultiopusEntries);
    var lines := Split(section, CRLF);
    if EnableMultichannelOpus(section).Ok? {
      var pts := Allocate(FormatList(lines[0]), 6).value;
      AllEntryLinesCount(pts, MultiopusEntries);
      MultiopusLineCount();
    }
  }

  /** `enableL16`: three increasing free payload types for L16 at 8 kHz,
      16 kHz and 48 kHz stereo, six lines inserted before the final line. */
  lemma EnableL16Shape(section: string)
    requires MediaLines(Split(section, CRLF))
    ensures var lines := Split(section, CRLF);
      EnableL16(section).Ok? <==> Allocate(FormatList(lines[0]), 3).Ok?
    ensures var lines := Split(section, CRLF);
      var n := |lines|;
      Allocate(FormatList(lines[0]), 3).Ok? ==>
        var pts := Allocate(FormatList(lines[0]), 3).value;
        var p, q, r := NatToString(pts[0]), NatToString(pts[1]), NatToString(pts[2]);
        && pts[0] < pts[1] < pts[2]
        && EnableL16(section).Ok?
        && Split(EnableL16(section).value, CRLF)
           == [lines[0] + " " + p + " " + q + " " + r] + lines[1..n - 1]
              + ["a=rtpmap:" + p + " L16/8000/2", "a=rtcp-fb:" + p + " transport-cc",
                 "a=rtpmap:" + q + " L16/16000/2", "a=rtcp-fb:" + q + " transport-cc",
                 "a=rtpmap:" + r + " L16/48000/2", "a=rtcp-fb:" + r + " transport-cc"]
              + [lines[n - 1]]
  {
    L16TableOk();
    AddCodecsShape(section, L16Entries);
    var lines := Split(section, CRLF);
    if EnableL16(section).Ok? {
      var pts := Allocate(FormatList(lines[0]), 3).value;
      L16Lines(pts);
      HeaderAppend3(lines[0], NatToString(pts[0]), NatToString(pts[1]), NatToString(pts[2]));
    }
  }

  lemma HeaderAppend3(h: string, p: string, q: string, r: string)
    ensures h + (" " + p + " " + q + " " + r) == h + " " + p + " " + q + " " + r
  {
  }

  lemma L16Lines(pts: seq<nat>)
    requires |pts| == 3
    ensures var p, q, r := NatToString(pts[0]), NatToString(pts[1]), NatToString(pts[2]);
      && PtSuffix(pts) == " " + p + " " + q + " " + r
      && AllEntryLines(pts, L16Entries)
         == ["a=rtpmap:" + p + " L16/8000/2", "a=rtcp-fb:" + p + " transport-cc",
             "a=rtpmap:" + q + " L16/16000/2", "a=rtcp-fb:" + q + " transport-cc",
             "a=rtpmap:" + r + " L16/48000/2", "a=rtcp-fb:" + r + " transport-cc"]
  {
    ThreeEntries(pts, L16Entries);
    var p, q, r := NatToString(pts[0]), NatToString(pts[1]), NatToString(pts[2]);
    L16Spaced();
    SpaceThen("a=rtpmap:" + p, L16Entries[0].encoding, " L16/8000/2");
    SpaceThen("a=rtpmap:" + q, L16Entries[1].encoding, " L16/16000/2");
    SpaceThen("a=rtpmap:" + r, L16Entries[2].encoding, " L16/48000/2");
  }

  lemma ThreeEntries(pts: seq<nat>, es: seq<CodecEntry>)
    requires |pts| == 3 && |es| == 3 && es[0].fmtp.None? && es[1].fmtp.None? && es[2].fmtp.None?
    ensures PtSuffix(pts)
      == " " + NatToString(pts[0]) + " " + NatToString(pts[1]) + " " + NatToString(pts[2])
    ensures AllEntryLines(pts, es)
      == ["a=rtpmap:" + NatToString(pts[0]) + " " + es[0].encoding,
          "a=rtcp-fb:" + NatToString(pts[0]) + " transport-cc",
          "a=rtpmap:" + NatToString(pts[1]) + " " + es[1].encoding,
          "a=rtcp-fb:" + NatToString(pts[1]) + " transport-cc",
          "a=rtpmap:" + NatToString(pts[2]) + " " + es[2].encoding,
          "a=rtcp-fb:" + NatToString(pts[2]) + " transport-cc"]
  {
    ThreeSuffix(pts);
    ThreeLines(pts, es);
  }

  lemma ThreeSuffix(pts: seq<nat>)
    requires |pts| == 3
    ensures PtSuffix(pts)
      == " " + NatToString(pts[0]) + " " + NatToString(pts[1]) + " " + NatToString(pts[2])
  {
    var p, q, r := NatToString(pts[0]), NatToString(pts[1]), NatToString(pts[2]);
    assert pts[1..][1..] == [pts[2]] && pts[1..][1..][1..] == [];
    assert PtSuffix(pts[1..][1..]) == " " + r + "";
    assert PtSuffix(pts[1..]) == " " + q + (" " + r + "");
    SpacedThree(p, q, r);
  }

  lemma SpacedThree(p: string, q: string, r: string)
    ensures " " + p + (" " + q + (" " + r + "")) == " " + p + " " + q + " " + r
  {
    assert " " + r + "" == " " + r;
  }

  lemma ThreeLines(pts: seq<nat>, es: seq<CodecEntry>)
    requires |pts| == 3 && |es| == 3 && es[0].fmtp.None? && es[1].fmtp.None? && es[2].fmtp.None?
    ensures AllEntryLines(pts, es)
      == ["a=rtpmap:" + NatToString(pts[0]) + " " + es[0].encoding,
          "a=rtcp-fb:" + NatToString(pts[0]) + " transport-cc",
          "a=rtpmap:" + NatToString(pts[1]) + " " + es[1].encoding,
          "a=rtcp-fb:" + NatToString(pts[1]) + " transport-cc",
          "a=rtpmap:" + NatToString(pts[2]) + " " + es[2].encoding,
          "a=rtcp-fb:" + NatToString(pts[2]) + " transport-cc"]
  {
    TwoEntries(pts[1..], es[1..]);
    assert pts[1..][0] == pts[1] && pts[1..][1] == pts[2];
    assert es[1..][0] == es[1] && es[1..][1] == es[2];
    var p := NatToString(pts[0]);
    assert EntryLines(pts[0], es[0]) == ["a=rtpmap:" + p + " " + es[0].encoding, "a=rtcp-fb:" + p + " transport-cc"];
  }

  /** Each codec contributes its rtpmap and rtcp-fb lines, plus the fmtp
      line when it has one. */
  function LineCount(es: seq<CodecEntry>): nat
    decreases |es|
  {
    if es == [] then 0 else (if es[0].fmtp.Some? then 3 else 2) + LineCount(es[1..])
  }

  lemma MultiopusLineCount()
    ensures LineCount(MultiopusEntries) == 18
  {
    assert forall i :: 0 <= i < |MultiopusEntries| ==> MultiopusEntries[i].fmtp.Some?;
    assert LineCount(MultiopusEntries[5..]) == 3;
    assert LineCount(MultiopusEntries[4..]) == 6;
    assert LineCount(MultiopusEntries[3..]) == 9;
    assert LineCount(MultiopusEntries[2..]) == 12;
    assert LineCount(MultiopusEntries[1..]) == 15;
  }

  lemma {:induction false} AllEntryLinesCount(pts: seq<nat>, es: seq<CodecEntry>)
    requires |pts| == |es|
    ensures |AllEntryLines(pts, es)| == LineCount(es)
    decreases |es|
  {
    if es != [] {
      AllEntryLinesCount(pts[1..], es[1..]);
    }
  }

  lemma {:induction false} LineCountConcat(es1: seq<CodecEntry>, es2: seq<CodecEntry>)
    ensures LineCount(es1 + es2) == LineCount(es1) + LineCount(es2)
    decreases |es1|
  {
    if es1 == [] {
      assert es1 + es2 == es2;
    } else {
      assert (es1 + es2)[1..] == es1[1..] + es2;
      LineCountConcat(es1[1..], es2);
    }
  }

  lemma PlainTablesLineCount()
    ensures LineCount(PcmauEntries) == 4 && LineCount(L16Entries) == 6
  {
    assert LineCount(PcmauEntries[1..]) == 2;
    assert LineCount(L16Entries[2..]) == 2;
    assert LineCount(L16Entries[1..]) == 4;
  }

  /** A successful rewrite inserts exactly the table's lines. */
  lemma AddCodecsLineCount(section: string, es: seq<CodecEntry>)
    requires MediaLines(Split(section, CRLF))
    requires forall i :: 0 <= i < |es| ==> EntryOk(es[i])
    ensures AddCodecs(section, es).Ok? ==>
      |Split(AddCodecs(section, es).value, CRLF)| == |Split(section, CRLF)| + LineCount(es)
  {
    AddCodecsShape(section, es);
    var lines := Split(section, CRLF);
    if AddCodecs(section, es).Ok? {
      AllEntryLinesCount(Allocate(FormatList(lines[0]), |es|).value, es);
    }
  }
}

/** `editOffer`: rewrite the first audio media section of the local offer
    so that it advertises stereo Opus and the codecs that the browser
    supports but does not advertise by itself. */
module OfferEditor {
  import opened Results
  import opened Strings
  import opened PayloadTypes
  import opened CodecRewriters
  import opened StereoOpus

  /** The separator the offer is cut at: every media section starts with
      an `m=` line (section 5.14 of RFC 8866). */
  const MediaSeparator: string := "m="

  /** The names under which the codec probes report a supported but
      non-advertised codec. */
  const PcmaCodec: string := "pcma/8000/2"
  const MultiopusCodec: string := "multiopus/48000/6"
  const L16Codec: string := "L16/48000/2"

  predicate IsAudioSection(section: string) {
    StartsWith(section, "audio")
  }

  /** Index of the first audio section at or after `from`. */
  function FirstAudioFrom(sections: seq<string>, from: nat): (r: Option<nat>)
    requires from <= |sections|
    decreases |sections| - from
    ensures r.Some? ==> from <= r.value < |sections| && IsAudioSection(sections[r.value])
    ensures r.Some? ==> forall k :: from <= k < r.value ==> !IsAudioSection(sections[k])
    ensures r.None? <==> forall k :: from <= k < |sections| ==> !IsAudioSection(sections[k])
  {
    if from == |sections| then None
    else if IsAudioSection(sections[from]) then Some(from)
    else FirstAudioFrom(sections, from + 1)
  }

  /** Run a rewriter when the probes enabled it, or leave the text alone.
      `AddCodecs(s, PcmauEntries)` is `enableStereoPcmau`, and likewise for
      the multiopus and L16 tables. */
  function Optionally(enabled: bool, section: string, es: seq<CodecEntry>): Result<string> {
    if enabled then AddCodecs(section, es) else Ok(section)
  }

  /** The rewrites applied to the audio section, in the source's order:
      stereo Opus always, then PCMU/PCMA, multiopus and L16 when the
      probes found them. The first allocation failure aborts the edit. */
  function EditAudioSection(section: string, codecs: seq<string>): Result<string> {
    var s0 := EnableStereoOpus(section);
    var s1 :- Optionally(PcmaCodec in codecs, s0, PcmauEntries);
    var s2 :- Optionally(MultiopusCodec in codecs, s1, MultiopusEntries);
    Optionally(L16Codec in codecs, s2, L16Entries)
  }

  function EditOffer(sdp: string, codecs: seq<string>): Result<string> {
    var sections := Split(sdp, MediaSeparator);
    match FirstAudioFrom(sections, 0)
    case None => Ok(Join(sections, MediaSeparator))
    case Some(i) =>
      var edited :- EditAudioSection(sections[i], codecs);
      Ok(Join(sections[i := edited], MediaSeparator))
  }

  /** A rewriter step fails only when it runs out of payload types. */
  lemma OptionallyError(enabled: bool, section: string, es: seq<CodecEntry>)
    ensures Optionally(enabled, section, es).Err? ==> Optionally(enabled, section, es).message == NoFreePayloadType
  {
    AddCodecsError(section, es);
  }

  /** The edit fails only when a rewriter runs out of payload types. */
  lemma EditOfferError(sdp: string, codecs: seq<string>)
    ensures EditOffer(sdp, codecs).Err? ==> EditOffer(sdp, codecs).message == NoFreePayloadType
  {
    var sections := Split(sdp, MediaSeparator);
    match FirstAudioFrom(sections, 0)
    case None =>
    case Some(i) =>
      var s0 := EnableStereoOpus(sections[i]);
      OptionallyError(PcmaCodec in codecs, s0, PcmauEntries);
      var s1 := Optionally(PcmaCodec in codecs, s0, PcmauEntries);
      if s1.Ok? {
        OptionallyError(MultiopusCodec in codecs, s1.value, MultiopusEntries);
        var s2 := Optionally(MultiopusCodec in codecs, s1.value, MultiopusEntries);
        if s2.Ok? {
          OptionallyError(L16Codec in codecs, s2.value, L16Entries);
        }
      }
  }

  /** An offer without an audio section is sent as it was created. */
  lemma EditOfferNoAudio(sdp: string, codecs: seq<string>)
    requires forall k :: 0 <= k < |Split(sdp, MediaSeparator)| ==> !IsAudioSection(Split(sdp, MediaSeparator)[k])
    ensures EditOffer(sdp, codecs) == Ok(sdp)
  {
    JoinSplit(sdp, MediaSeparator);
  }

  /** Only the first audio section changes: the offer is the text before
      it, the section, and the text after it, and the edited offer keeps
      the text before and after around the edited section. */
  lemma EditOfferSplice(sdp: string, codecs: seq<string>)
    ensures var sections := Split(sdp, MediaSeparator);
      FirstAudioFrom(sections, 0).Some? ==>
        var i := FirstAudioFrom(sections, 0).value;
        var before := Join(sections[..i] + [""], MediaSeparator);
        var after := Join([""] + sections[i + 1..], MediaSeparator);
        var edited := EditAudioSection(sections[i], codecs);
        && sdp == before + sections[i] + after
        && (EditOffer(sdp, codecs).Ok? <==> edited.Ok?)
        && (edited.Ok? ==> EditOffer(sdp, codecs).value == before + edited.value + after)
  {
    var sections := Split(sdp, MediaSeparator);
    if FirstAudioFrom(sections, 0).Some? {
      var i := FirstAudioFrom(sections, 0).value;
      JoinSplit(sdp, MediaSeparator);
      JoinAround(sections, i, sections[i], MediaSeparator);
      assert sections[i := sections[i]] == sections;
      var edited := EditAudioSection(sections[i], codecs);
      if edited.Ok? {
        JoinAround(sections, i, edited.value, MediaSeparator);
      }
    }
  }

  /** The codec table of every rewriter the probes enabled, in the order
      the edit runs them. */
  function Requested(codecs: seq<string>): seq<CodecEntry> {
    (if PcmaCodec in codecs then PcmauEntries else [])
    + ((if MultiopusCodec in codecs then MultiopusEntries else [])
       + (if L16Codec in codecs then L16Entries else []))
  }

  lemma RequestedOk(codecs: seq<string>)
    ensures forall i :: 0 <= i < |Requested(codecs)| ==> EntryOk(Requested(codecs)[i])
  {
    PcmauTableOk();
    MultiopusTableOk();
    L16TableOk();
  }

  /** A media section keeps its `m=` line through the stereo Opus rewrite. */
  lemma StereoOpusKeepsMediaLine(section: string)
    requires IsAudioSection(section) && MediaLines(Split(section, CRLF))
    ensures Split(EnableStereoOpus(section), CRLF)[0] == Split(section, CRLF)[0]
    ensures MediaLines(Split(EnableStereoOpus(section), CRLF))
  {
    var lines := Split(section, CRLF);
    EnableStereoOpusShape(section);
    SplitFirstIsPrefix(section, CRLF);
    AudioLineIsNotFmtp(section, lines[0], OpusPayloadFormat(lines));
  }

  lemma AudioLineIsNotFmtp(section: string, line: string, pt: string)
    requires IsAudioSection(section) && StartsWith(section, line)
    ensures !IsFmtpOf(line, pt)
  {
    if |line| >= 2 {
      assert line[1] == section[1] == "audio"[1];
    }
  }

  /** A skipped rewriter is the rewriter for the empty table. */
  lemma OptionallyIsAdd(enabled: bool, section: string, es: seq<CodecEntry>)
    ensures Optionally(enabled, section, es) == AddCodecs(section, if enabled then es else [])
  {
    AddCodecsNone(section);
  }

  /** The chain of rewriters the edit runs on the audio section is one
      rewrite that adds every requested codec table after the stereo Opus
      change. */
  lemma {:induction false} EditAudioSectionAsOne(section: string, codecs: seq<string>)
    requires IsAudioSection(section) && MediaLines(Split(section, CRLF))
    ensures EditAudioSection(section, codecs) == AddCodecs(EnableStereoOpus(section), Requested(codecs))
  {
    var s0 := EnableStereoOpus(section);
    StereoOpusKeepsMediaLine(section);
    RequestedOk(codecs);
    var a := if PcmaCodec in codecs then PcmauEntries else [];
    var b := if MultiopusCodec in codecs then MultiopusEntries else [];
    var c := if L16Codec in codecs then L16Entries else [];
    assert Requested(codecs) == a + (b + c);
    assert forall i :: 0 <= i < |a| ==> EntryOk(a[i]) by { PcmauTableOk(); }
    assert forall i :: 0 <= i < |b| ==> EntryOk(b[i]) by { MultiopusTableOk(); }
    AddCodecsConcat(s0, a, b + c);
    OptionallyIsAdd(PcmaCodec in codecs, s0, PcmauEntries);
    var r1 := AddCodecs(s0, a);
    if r1.Ok? {
      var s1 := r1.value;
      AddCodecsShape(s0, a);
      AddCodecsConcat(s1, b, c);
      OptionallyIsAdd(MultiopusCodec in codecs, s1, MultiopusEntries);
      var r2 := AddCodecs(s1, b);
      if r2.Ok? {
        OptionallyIsAdd(L16Codec in codecs, r2.value, L16Entries);
      }
    }
  }

  /** Payload types the edit allocates for the requested codecs. */
  function TypesNeeded(codecs: seq<string>): nat {
    (if PcmaCodec in codecs then 2 else 0)
    + (if MultiopusCodec in codecs then 6 else 0)
    + (if L16Codec in codecs then 3 else 0)
  }

  /** Attribute lines the edit inserts for the requested codecs. */
  function LinesAdded(codecs: seq<string>): nat {
    (if PcmaCodec in codecs then 4 else 0)
    + (if MultiopusCodec in codecs then 18 else 0)
    + (if L16Codec in codecs then 6 else 0)
  }

  lemma RequestedSize(codecs: seq<string>)
    ensures |Requested(codecs)| == TypesNeeded(codecs)
    ensures LineCount(Requested(codecs)) == LinesAdded(codecs)
  {
    var a := if PcmaCodec in codecs then PcmauEntries else [];
    var b := if MultiopusCodec in codecs then MultiopusEntries else [];
    var c := if L16Codec in codecs then L16Entries else [];
    LineCountConcat(b, c);
    LineCountConcat(a, b + c);
    MultiopusLineCount();
    PlainTablesLineCount();
  }

  /** The audio section edit succeeds exactly when the media line has
      enough free dynamic payload types for every requested codec; it then
      appends all of them to the media line, in allocation order, and
      inserts the codecs' attribute lines. */
  lemma EditAudioSectionShape(section: string, codecs: seq<string>)
    requires IsAudioSection(section) && MediaLines(Split(section, CRLF))
    ensures var lines := Split(section, CRLF);
      var r := EditAudioSection(section, codecs);
      && (r.Ok? <==> Allocate(FormatList(lines[0]), TypesNeeded(codecs)).Ok?)
      && (r.Ok? ==>
            var pts := Allocate(FormatList(lines[0]), TypesNeeded(codecs)).value;
            var out := Split(r.value, CRLF);
            && |out| == |lines| + LinesAdded(codecs)
            && FormatList(out[0]) == FormatList(lines[0]) + Rendered(pts))
  {
    var s0 := EnableStereoOpus(section);
    EditAudioSectionAsOne(section, codecs);
    StereoOpusKeepsMediaLine(section);
    EnableStereoOpusShape(section);
    RequestedOk(codecs);
    RequestedSize(codecs);
    AddCodecsShape(s0, Requested(codecs));
    AddCodecsLineCount(s0, Requested(codecs));
  }
}

/** `enableStereoOpus`: find the payload format of the first Opus rtpmap
    line of a media section and append `stereo=1` and `sprop-stereo=1` to
    that format's fmtp lines, unless the parameters are already there. */
module StereoOpus {
  import opened Results
  import opened Strings

  const RtpmapPrefix: string := "a=rtpmap:"
  const StereoParam: string := ";stereo=1"
  const SpropStereoParam: string := ";sprop-stereo=1"

  /** A line `a=rtpmap:...` whose lower-cased text mentions `opus/`. */
  predicate IsOpusRtpmap(line: string) {
    StartsWith(line, RtpmapPrefix) && Contains(ToLower(line), "opus/")
  }

  /** Index of the first Opus rtpmap line at or after `from`. */
  function FirstOpusFrom(lines: seq<string>, from: nat): (r: Option<nat>)
    requires from <= |lines|
    decreases |lines| - from
    ensures r.Some? ==> from <= r.value < |lines| && IsOpusRtpmap(lines[r.value])
    ensures r.Some? ==> forall k :: from <= k < r.value ==> !IsOpusRtpmap(lines[k])
    ensures r.None? <==> forall k :: from <= k < |lines| ==> !IsOpusRtpmap(lines[k])
  {
    if from == |lines| then None
    else if IsOpusRtpmap(lines[from]) then Some(from)
    else FirstOpusFrom(lines, from + 1)
  }

  /** The payload format named by an rtpmap line: the text after
      `a=rtpmap:` up to the first space. */
  function RtpmapFormat(line: string): string
    requires StartsWith(line, RtpmapPrefix)
  {
    Split(line[|RtpmapPrefix|..], " ")[0]
  }

  /** The loop's `opusPayloadFormat`: the format of the first Opus rtpmap
      line, or the empty string when there is none. */
  function OpusPayloadFormat(lines: seq<string>): string {
    match FirstOpusFrom(lines, 0)
    case None => ""
    case Some(i) => RtpmapFormat(lines[i])
  }

  /** The fmtp lines the rewrite touches: `a=fmtp:<pt> ...`. */
  predicate IsFmtpOf(line: string, pt: string) {
    StartsWith(line, "a=fmtp:" + pt + " ")
  }

  /** The rewrite of one fmtp line. The test for the first parameter is
      `includes("stereo")`, which `sprop-stereo` also satisfies. */
  function StereoLine(line: string): (r: string)
    ensures StartsWith(r, line)
    ensures Contains(r, "stereo") && Contains(r, "sprop-stereo")
    ensures '\n' !in line ==> '\n' !in r
  {
    var withStereo := if Contains(line, "stereo") then line else line + StereoParam;
    SpropWitness();
    ContainsConcat(line, StereoParam, "stereo");
    var r := if Contains(withStereo, "sprop-stereo") then withStereo else withStereo + SpropStereoParam;
    ContainsConcat(withStereo, SpropStereoParam, "sprop-stereo");
    ContainsConcat(withStereo, SpropStereoParam, "stereo");
    assert withStereo <= r;
    r
  }

  lemma SpropWitness()
    ensures Contains(StereoParam, "stereo")
    ensures Contains(SpropStereoParam, "sprop-stereo")
    ensures '\n' !in StereoParam && '\n' !in SpropStereoParam
  {
    assert OccursAt(StereoParam, "stereo", 1);
    assert OccursAt(SpropStereoParam, "sprop-stereo", 1);
  }

  /** Every line of the section, with the fmtp lines of `pt` rewritten. */
  function StereoLines(lines: seq<string>, pt: string): (r: seq<string>)
    ensures |r| == |lines|
  {
    seq(|lines|, k requires 0 <= k < |lines| =>
      if IsFmtpOf(lines[k], pt) then StereoLine(lines[k]) else lines[k])
  }

  function EnableStereoOpus(section: string): (r: string) {
    var lines := Split(section, CRLF);
    var pt := OpusPayloadFormat(lines);
    if pt == "" then section else Join(StereoLines(lines, pt), CRLF)
  }

  /** A line is left alone exactly when it already mentions both
      parameters. */
  lemma StereoLineFixed(line: string)
    ensures StereoLine(line) == line <==> Contains(line, "stereo") && Contains(line, "sprop-stereo")
  {
    if !Contains(line, "stereo") || !Contains(line, "sprop-stereo") {
      assert |StereoLine(line)| > |line| by {
        if !Contains(line, "stereo") {
          assert |StereoLine(line)| >= |line + StereoParam|;
        }
      }
    }
  }

  lemma StereoLineIdempotent(line: string)
    ensures StereoLine(StereoLine(line)) == StereoLine(line)
  {
    StereoLineFixed(StereoLine(line));
  }

  /** The `includes("stereo")` test is met by `sprop-stereo` alone, so an
      fmtp line carrying only `sprop-stereo` is not given `stereo=1`. */
  lemma SpropStereoSuppressesStereo(line: string)
    requires Contains(line, "sprop-stereo")
    ensures StereoLine(line) == line
  {
    var j :| 0 <= j <= |line| && OccursAt(line, "sprop-stereo", j);
    assert line[j + 6..j + 12] == line[j..j + 12][6..12];
    assert OccursAt(line, "stereo", j + 6);
    StereoLineFixed(line);
  }

  /** What the rewrite appends, case by case: both parameters to a line
      without `stereo`, `;sprop-stereo=1` alone to a line with `stereo` but
      without `sprop-stereo`, and nothing to a line with both. */
  lemma StereoLineCases(line: string)
    ensures !Contains(line, "stereo") ==> StereoLine(line) == line + StereoParam + SpropStereoParam
    ensures Contains(line, "stereo") && !Contains(line, "sprop-stereo") ==> StereoLine(line) == line + SpropStereoParam
    ensures Contains(line, "sprop-stereo") ==> StereoLine(line) == line
  {
    if !Contains(line, "stereo") {
      NoSpropAfterStereo(line);
    }
    if Contains(line, "sprop-stereo") {
      SpropStereoSuppressesStereo(line);
    }
  }

  /** Appending `;stereo=1` to a line without `stereo` creates no
      `sprop-stereo`: an occurrence inside the line would contain `stereo`,
      and one reaching into the suffix would have to match its `;`. */
  lemma NoSpropAfterStereo(line: string)
    requires !Contains(line, "stereo")
    ensures !Contains(line + StereoParam, "sprop-stereo")
  {
    var s := line + StereoParam;
    forall j | 0 <= j <= |s|
      ensures !OccursAt(s, "sprop-stereo", j)
    {
      if OccursAt(s, "sprop-stereo", j) {
        if j + 12 <= |line| {
          assert s[..|line|] == line;
          assert s[j + 6..j + 12] == line[j + 6..j + 12];
          assert s[j..j + 12][6..12] == s[j + 6..j + 12];
          assert OccursAt(line, "stereo", j + 6);
          assert false;
        } else {
          SpropHasNoSemicolon(s, j, |line|);
          assert false;
        }
      }
    }
  }

  lemma SpropHasNoSemicolon(s: string, j: nat, n: nat)
    requires OccursAt(s, "sprop-stereo", j) && j <= n < j + 12
    ensures s[n] != ';'
  {
    assert s[n] == s[j..j + 12][n - j];
  }

  /** Rewriting a line free of CRLF keeps it free of CRLF. */
  lemma StereoLineSingle(line: string)
    requires !Contains(line, CRLF)
    ensures !Contains(StereoLine(line), CRLF)
  {
    SpropWitness();
    var withStereo := if Contains(line, "stereo") then line else line + StereoParam;
    if !Contains(line, "stereo") {
      AppendKeepsFree(line, StereoParam, CRLF);
    }
    if !Contains(withStereo, "sprop-stereo") {
      AppendKeepsFree(withStereo, SpropStereoParam, CRLF);
    }
  }

  /** The rewritten section splits into the same number of lines; the fmtp
      lines of the Opus format are extended to carry both parameters and
      every other line is unchanged. Without an Opus rtpmap line the
      section is returned as is. */
  lemma EnableStereoOpusShape(section: string)
    ensures var lines := Split(section, CRLF);
      var pt := OpusPayloadFormat(lines);
      var out := Split(EnableStereoOpus(section), CRLF);
      && (pt == "" ==> EnableStereoOpus(section) == section)
      && |out| == |lines|
      && (forall k :: 0 <= k < |lines| ==>
            if pt != "" && IsFmtpOf(lines[k], pt)
            then && out[k] == StereoLine(lines[k])
                 && StartsWith(out[k], lines[k]) && Contains(out[k], "stereo") && Contains(out[k], "sprop-stereo")
            else out[k] == lines[k])
  {
    var lines := Split(section, CRLF);
    var pt := OpusPayloadFormat(lines);
    if pt != "" {
      var out := StereoLines(lines, pt);
      forall k | 0 <= k < |out|
        ensures !Contains(out[k], CRLF)
      {
        StereoLineSingle(lines[k]);
      }
      SeparatorsBorderless();
      SplitJoin(out, CRLF);
    }
  }

  /** An fmtp line never passes for an rtpmap line. */
  lemma FmtpIsNotRtpmap(line: string, pt: string)
    requires StartsWith(line, "a=fmtp:" + pt + " ")
    ensures !StartsWith(line, RtpmapPrefix)
  {
    assert line[2] == ("a=fmtp:" + pt + " ")[2] == 'f';
  }

  /** An Opus rtpmap line with none before it is the one the search finds. */
  lemma FirstOpusUnique(lines: seq<string>, i: nat)
    requires i < |lines| && IsOpusRtpmap(lines[i])
    requires forall k :: 0 <= k < i ==> !IsOpusRtpmap(lines[k])
    ensures FirstOpusFrom(lines, 0) == Some(i)
  {
    FirstOpusFromUnique(lines, 0, i);
  }

  lemma {:induction false} FirstOpusFromUnique(lines: seq<string>, from: nat, i: nat)
    requires from <= i < |lines| && IsOpusRtpmap(lines[i])
    requires forall k :: from <= k < i ==> !IsOpusRtpmap(lines[k])
    ensures FirstOpusFrom(lines, from) == Some(i)
    decreases i - from
  {
    if from < i {
      assert !IsOpusRtpmap(lines[from]);
      FirstOpusFromUnique(lines, from + 1, i);
    }
  }

  /** A rewritten fmtp line is still not an Opus rtpmap line. */
  lemma RewrittenNotRtpmap(line: string, pt: string)
    requires IsFmtpOf(line, pt)
    ensures !IsOpusRtpmap(StereoLine(line))
  {
    var p := "a=fmtp:" + pt + " ";
    var r := StereoLine(line);
    assert r[..|p|] == line[..|p|];
    FmtpIsNotRtpmap(r, pt);
  }

  /** The rewrite does not move the first Opus rtpmap line, so the format
      it finds is unchanged. */
  lemma StereoLinesKeepFormat(lines: seq<string>, pt: string)
    requires pt != "" && pt == OpusPayloadFormat(lines)
    ensures OpusPayloadFormat(StereoLines(lines, pt)) == pt
  {
    var out := StereoLines(lines, pt);
    var i := FirstOpusFrom(lines, 0).value;
    forall k | 0 <= k < i
      ensures !IsOpusRtpmap(out[k])
    {
      if IsFmtpOf(lines[k], pt) {
        RewrittenNotRtpmap(lines[k], pt);
      }
    }
    if IsFmtpOf(lines[i], pt) {
      FmtpIsNotRtpmap(lines[i], pt);
    }
    assert out[i] == lines[i];
    FirstOpusUnique(out, i);
  }

  /** Rewriting the rewritten lines changes nothing. */
  lemma StereoLinesFixpoint(lines: seq<string>, pt: string)
    ensures StereoLines(StereoLines(lines, pt), pt) == StereoLines(lines, pt)
  {
    var out := StereoLines(lines, pt);
    forall k | 0 <= k < |out|
      ensures StereoLines(out, pt)[k] == out[k]
    {
      if IsFmtpOf(lines[k], pt) {
        StereoLineIdempotent(lines[k]);
      }
    }
  }

  /** Applying the rewrite twice is the same as applying it once. */
  lemma EnableStereoOpusIdempotent(section: string)
    ensures EnableStereoOpus(EnableStereoOpus(section)) == EnableStereoOpus(section)
  {
    var lines := Split(section, CRLF);
    var pt := OpusPayloadFormat(lines);
    if pt != "" {
      var r := EnableStereoOpus(section);
      var out := StereoLines(lines, pt);
      assert r == Join(out, CRLF);
      SplitOfRewrite(section);
      StereoLinesKeepFormat(lines, pt);
      StereoLinesFixpoint(lines, pt);
      assert EnableStereoOpus(r) == Join(StereoLines(out, pt), CRLF);
    }
  }

  lemma SplitOfRewrite(section: string)
    requires OpusPayloadFormat(Split(section, CRLF)) != ""
    ensures Split(EnableStereoOpus(section), CRLF)
      == StereoLines(Split(section, CRLF), OpusPayloadFormat(Split(section, CRLF)))
  {
    var lines := Split(section, CRLF);
    var out := StereoLines(lines, OpusPayloadFormat(lines));
    forall k | 0 <= k < |out|
      ensures !Contains(out[k], CRLF)
    {
      StereoLineSingle(lines[k]);
    }
    SeparatorsBorderless();
    SplitJoin(out, CRLF);
  }
}

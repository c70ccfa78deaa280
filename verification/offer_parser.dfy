/** `parseOffer`: the parts of the local offer the reader keeps for
    trickle ICE — the first ICE username fragment and password, and the
    text of every media line. */
module OfferParser {
  import opened Strings

  const MediaPrefix: string := "m="
  const UfragPrefix: string := "a=ice-ufrag:"
  const PwdPrefix: string := "a=ice-pwd:"

  /** The `OfferData` record: ICE credentials and the media descriptions
      without their `m=` prefix, in offer order. */
  datatype OfferData = OfferData(iceUfrag: string, icePwd: string, medias: seq<string>)

  const EmptyOffer: OfferData := OfferData("", "", [])

  /** One iteration of the loop over the offer's lines. The credential
      branches are taken only while the field is still empty, and a media
      line never reaches them. */
  function ParseLine(acc: OfferData, line: string): OfferData {
    if StartsWith(line, MediaPrefix) then
      acc.(medias := acc.medias + [line[|MediaPrefix|..]])
    else if acc.iceUfrag == "" && StartsWith(line, UfragPrefix) then
      acc.(iceUfrag := line[|UfragPrefix|..])
    else if acc.icePwd == "" && StartsWith(line, PwdPrefix) then
      acc.(icePwd := line[|PwdPrefix|..])
    else acc
  }

  function ParseLines(acc: OfferData, lines: seq<string>): OfferData
    decreases |lines|
  {
    if lines == [] then acc else ParseLines(ParseLine(acc, lines[0]), lines[1..])
  }

  function ParseOffer(sdp: string): OfferData {
    ParseLines(EmptyOffer, Split(sdp, CRLF))
  }

  // ---------------------------------------------------------------------
  // Reference definitions

  /** The media descriptions of every `m=` line, in order. */
  function MediaLabels(lines: seq<string>): (r: seq<string>)
    decreases |lines|
    ensures |r| <= |lines|
  {
    if lines == [] then []
    else (if StartsWith(lines[0], MediaPrefix) then [lines[0][|MediaPrefix|..]] else [])
         + MediaLabels(lines[1..])
  }

  /** The first non-empty value of a line starting with `prefix`, or the
      empty string when there is none. */
  function FirstValue(lines: seq<string>, prefix: string): (v: string)
    decreases |lines|
    ensures v != "" ==> exists k :: 0 <= k < |lines| && StartsWith(lines[k], prefix) && lines[k][|prefix|..] == v
  {
    if lines == [] then ""
    else if StartsWith(lines[0], prefix) && lines[0][|prefix|..] != "" then lines[0][|prefix|..]
    else
      var v := FirstValue(lines[1..], prefix);
      assert v != "" ==> exists k :: 1 <= k < |lines| && StartsWith(lines[k], prefix) && lines[k][|prefix|..] == v by {
        if v != "" {
          var k :| 0 <= k < |lines[1..]| && StartsWith(lines[1..][k], prefix) && lines[1..][k][|prefix|..] == v;
          assert lines[k + 1] == lines[1..][k];
        }
      }
      v
  }

  /** The three line kinds exclude one another. */
  lemma PrefixesDisjoint(line: string)
    ensures StartsWith(line, UfragPrefix) ==> !StartsWith(line, MediaPrefix) && !StartsWith(line, PwdPrefix)
    ensures StartsWith(line, PwdPrefix) ==> !StartsWith(line, MediaPrefix)
  {
    if StartsWith(line, UfragPrefix) {
      assert line[0] == 'a' && line[6] == 'u';
    }
    if StartsWith(line, PwdPrefix) {
      assert line[0] == 'a';
    }
  }

  /** The fold computes the reference definitions: a credential already
      found is kept, otherwise the first non-empty one of the remaining
      lines is taken, and the media descriptions are appended in order. */
  lemma ParseLinesSpec(acc: OfferData, lines: seq<string>)
    ensures ParseLines(acc, lines)
      == OfferData(if acc.iceUfrag != "" then acc.iceUfrag else FirstValue(lines, UfragPrefix),
                   if acc.icePwd != "" then acc.icePwd else FirstValue(lines, PwdPrefix),
                   acc.medias + MediaLabels(lines))
  {
    ParseLinesUfrag(acc, lines);
    ParseLinesPwd(acc, lines);
    ParseLinesMedias(acc, lines);
  }

  lemma {:induction false} ParseLinesUfrag(acc: OfferData, lines: seq<string>)
    ensures ParseLines(acc, lines).iceUfrag
      == if acc.iceUfrag != "" then acc.iceUfrag else FirstValue(lines, UfragPrefix)
    decreases |lines|
  {
    if lines != [] {
      PrefixesDisjoint(lines[0]);
      ParseLinesUfrag(ParseLine(acc, lines[0]), lines[1..]);
    }
  }

  lemma {:induction false} ParseLinesPwd(acc: OfferData, lines: seq<string>)
    ensures ParseLines(acc, lines).icePwd
      == if acc.icePwd != "" then acc.icePwd else FirstValue(lines, PwdPrefix)
    decreases |lines|
  {
    if lines != [] {
      PrefixesDisjoint(lines[0]);
      ParseLinesPwd(ParseLine(acc, lines[0]), lines[1..]);
    }
  }

  lemma {:induction false} ParseLinesMedias(acc: OfferData, lines: seq<string>)
    ensures ParseLines(acc, lines).medias == acc.medias + MediaLabels(lines)
    decreases |lines|
  {
    if lines == [] {
      assert acc.medias + [] == acc.medias;
    } else {
      PrefixesDisjoint(lines[0]);
      var next := ParseLine(acc, lines[0]);
      ParseLinesMedias(next, lines[1..]);
      var head := if StartsWith(lines[0], MediaPrefix) then [lines[0][|MediaPrefix|..]] else [];
      assert next.medias == acc.medias + head;
      assert acc.medias + head + MediaLabels(lines[1..]) == acc.medias + (head + MediaLabels(lines[1..]));
    }
  }

  /** `parseOffer` in terms of the reference definitions. */
  lemma ParseOfferFields(sdp: string)
    ensures var lines := Split(sdp, CRLF);
      ParseOffer(sdp) == OfferData(FirstValue(lines, UfragPrefix), FirstValue(lines, PwdPrefix), MediaLabels(lines))
  {
    ParseLinesSpec(EmptyOffer, Split(sdp, CRLF));
  }

  // ---------------------------------------------------------------------
  // Round trip

  /** The `m=` lines for the given media descriptions. */
  function MediaLinesFor(medias: seq<string>): (r: seq<string>)
    ensures |r| == |medias|
    ensures forall k :: 0 <= k < |medias| ==> r[k] == MediaPrefix + medias[k]
  {
    seq(|medias|, k requires 0 <= k < |medias| => MediaPrefix + medias[k])
  }

  /** A minimal offer carrying exactly the fields of `od`: the two
      credential lines followed by one `m=` line per media description. */
  function OfferLines(od: OfferData): seq<string> {
    [UfragPrefix + od.iceUfrag, PwdPrefix + od.icePwd] + MediaLinesFor(od.medias)
  }

  /** Fields that can be written on lines of their own and are found by
      the parser's "still empty" tests. */
  predicate Writable(od: OfferData) {
    && od.iceUfrag != "" && od.icePwd != ""
    && '\n' !in od.iceUfrag && '\n' !in od.icePwd
    && forall k :: 0 <= k < |od.medias| ==> '\n' !in od.medias[k]
  }

  lemma {:induction false} MediaLabelsOfMediaLines(medias: seq<string>)
    ensures MediaLabels(MediaLinesFor(medias)) == medias
    decreases |medias|
  {
    if medias != [] {
      var ls := MediaLinesFor(medias);
      assert ls[1..] == MediaLinesFor(medias[1..]);
      MediaLabelsOfMediaLines(medias[1..]);
      assert ls[0][|MediaPrefix|..] == medias[0];
      assert medias == [medias[0]] + medias[1..];
    }
  }

  lemma OfferLinesSingle(od: OfferData)
    requires Writable(od)
    ensures forall k :: 0 <= k < |OfferLines(od)| ==> !Contains(OfferLines(od)[k], CRLF)
  {
    var lines := OfferLines(od);
    NoLineFeedFree(UfragPrefix);
    NoLineFeedFree(PwdPrefix);
    NoLineFeedFree(MediaPrefix);
    forall k | 0 <= k < |lines|
      ensures !Contains(lines[k], CRLF)
    {
      if k == 0 {
        AppendKeepsFree(UfragPrefix, od.iceUfrag, CRLF);
      } else if k == 1 {
        AppendKeepsFree(PwdPrefix, od.icePwd, CRLF);
      } else {
        AppendKeepsFree(MediaPrefix, od.medias[k - 2], CRLF);
      }
    }
  }

  lemma OfferLinesFields(od: OfferData)
    requires Writable(od)
    ensures FirstValue(OfferLines(od), UfragPrefix) == od.iceUfrag
    ensures FirstValue(OfferLines(od), PwdPrefix) == od.icePwd
    ensures MediaLabels(OfferLines(od)) == od.medias
  {
    var lines := OfferLines(od);
    assert lines[0][|UfragPrefix|..] == od.iceUfrag;
    assert lines[1][|PwdPrefix|..] == od.icePwd;
    assert lines[0][6] == 'u';
    assert lines[1..][0] == lines[1];
    assert lines[1..][1..] == lines[2..] == MediaLinesFor(od.medias);
    assert lines[0][0] == 'a' && lines[1][0] == 'a';
    assert MediaLabels(lines[1..]) == [] + MediaLabels(lines[2..]);
    assert MediaLabels(lines) == [] + MediaLabels(lines[1..]);
    MediaLabelsOfMediaLines(od.medias);
  }

  /** Parsing the offer text built from `od` gives back `od`. */
  lemma ParseOfferLines(od: OfferData)
    requires Writable(od)
    ensures ParseOffer(Join(OfferLines(od), CRLF)) == od
  {
    var lines := OfferLines(od);
    OfferLinesSingle(od);
    SeparatorsBorderless();
    SplitJoin(lines, CRLF);
    ParseOfferFields(Join(lines, CRLF));
    OfferLinesFields(od);
  }
}

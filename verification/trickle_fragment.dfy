/** `generateSdpFragment`: the trickle ICE body that carries local
    candidates to the session resource (an SDP fragment in the sense of
    RFC 8840): the ICE credentials, then one block per media line that has
    candidates, in media order. */
module TrickleFragment {
  import opened Results
  import opened Strings
  import opened OfferParser

  /** A local ICE candidate: its attribute text and the index of the media
      line it belongs to, which the browser may leave null. */
  datatype Candidate = Candidate(candidate: string, sdpMLineIndex: Option<nat>)

  /** The candidates grouped under media index `mid`, in arrival order. A
      candidate whose index is null is grouped under the key "null", which
      no media index matches. */
  function CandidatesFor(cands: seq<Candidate>, mid: nat): (r: seq<Candidate>)
    decreases |cands|
    ensures |r| <= |cands|
    ensures forall k :: 0 <= k < |r| ==> r[k] in cands && r[k].sdpMLineIndex == Some(mid)
    ensures forall c :: c in cands && c.sdpMLineIndex == Some(mid) ==> c in r
  {
    if cands == [] then []
    else (if cands[0].sdpMLineIndex == Some(mid) then [cands[0]] else []) + CandidatesFor(cands[1..], mid)
  }

  /** Grouping distributes over concatenation: the group of a later batch
      follows the group of an earlier one, so each group keeps the
      candidates in arrival order. */
  lemma {:induction false} CandidatesForConcat(a: seq<Candidate>, b: seq<Candidate>, mid: nat)
    ensures CandidatesFor(a + b, mid) == CandidatesFor(a, mid) + CandidatesFor(b, mid)
    decreases |a|
  {
    if a == [] {
      assert a + b == b;
    } else {
      CandidatesForConcat(a[1..], b, mid);
      CandidatesForHead(a, b, mid);
      Reassociate(CandidatesFor(a + b, mid), CandidatesFor(a[1..] + b, mid), CandidatesFor(a, mid),
                  if a[0].sdpMLineIndex == Some(mid) then [a[0]] else [],
                  CandidatesFor(a[1..], mid), CandidatesFor(b, mid));
    }
  }

  lemma CandidatesForHead(a: seq<Candidate>, b: seq<Candidate>, mid: nat)
    requires a != []
    ensures var head := if a[0].sdpMLineIndex == Some(mid) then [a[0]] else [];
      && CandidatesFor(a, mid) == head + CandidatesFor(a[1..], mid)
      && CandidatesFor(a + b, mid) == head + CandidatesFor(a[1..] + b, mid)
  {
    assert (a + b)[0] == a[0];
    assert (a + b)[1..] == a[1..] + b;
  }

  /** The block emitted for one media line. */
  datatype Block = Block(media: string, mid: nat, candidates: seq<Candidate>)

  /** The blocks for `medias`, the first of which has media index `mid`:
      one per media line with at least one candidate, in media order. */
  function Blocks(medias: seq<string>, mid: nat, cands: seq<Candidate>): (bs: seq<Block>)
    decreases |medias|
    ensures |bs| <= |medias|
  {
    if medias == [] then []
    else
      var cs := CandidatesFor(cands, mid);
      (if cs == [] then [] else [Block(medias[0], mid, cs)]) + Blocks(medias[1..], mid + 1, cands)
  }

  /** Block `b` is the non-empty group of its media index, labelled with
      that media line's text. */
  predicate Labelled(medias: seq<string>, mid: nat, cands: seq<Candidate>, b: Block) {
    && mid <= b.mid < mid + |medias|
    && b.media == medias[b.mid - mid]
    && b.candidates == CandidatesFor(cands, b.mid) != []
  }

  /** Each block is the non-empty group of its media index, labelled with
      that media line's text; every media line with candidates has a block;
      and the blocks follow media order. */
  lemma BlocksFacts(medias: seq<string>, mid: nat, cands: seq<Candidate>)
    ensures forall j :: 0 <= j < |Blocks(medias, mid, cands)| ==>
      var b := Blocks(medias, mid, cands)[j];
      && mid <= b.mid < mid + |medias|
      && b.media == medias[b.mid - mid]
      && b.candidates == CandidatesFor(cands, b.mid) != []
    ensures forall m :: mid <= m < mid + |medias| && CandidatesFor(cands, m) != [] ==>
      exists j :: 0 <= j < |Blocks(medias, mid, cands)| && Blocks(medias, mid, cands)[j].mid == m
    ensures forall j :: 0 <= j < |Blocks(medias, mid, cands)| - 1 ==>
      Blocks(medias, mid, cands)[j].mid < Blocks(medias, mid, cands)[j + 1].mid
  {
    BlocksLabelled(medias, mid, cands);
    BlocksIncreasing(medias, mid, cands);
    forall m | mid <= m < mid + |medias| && CandidatesFor(cands, m) != []
      ensures exists j :: 0 <= j < |Blocks(medias, mid, cands)| && Blocks(medias, mid, cands)[j].mid == m
    {
      BlocksComplete(medias, mid, cands, m);
    }
  }

  /** A media line with at least one candidate gets a block. */
  lemma {:induction false} BlocksComplete(medias: seq<string>, mid: nat, cands: seq<Candidate>, m: nat)
    requires mid <= m < mid + |medias| && CandidatesFor(cands, m) != []
    ensures exists j :: 0 <= j < |Blocks(medias, mid, cands)| && Blocks(medias, mid, cands)[j].mid == m
    decreases |medias|
  {
    var bs := Blocks(medias, mid, cands);
    if m == mid {
      BlocksHead(medias, mid, cands);
      assert bs[0].mid == m;
    } else {
      BlocksComplete(medias[1..], mid + 1, cands, m);
      var rest := Blocks(medias[1..], mid + 1, cands);
      var j :| 0 <= j < |rest| && rest[j].mid == m;
      BlocksSuffix(medias, mid, cands, j);
      assert bs[|bs| - |rest| + j].mid == m;
    }
  }

  /** The first media line, when it has candidates, opens the blocks. */
  lemma BlocksHead(medias: seq<string>, mid: nat, cands: seq<Candidate>)
    requires medias != [] && CandidatesFor(cands, mid) != []
    ensures Blocks(medias, mid, cands) != [] && Blocks(medias, mid, cands)[0].mid == mid
  {
    BlocksStep(medias, mid, cands);
  }

  /** The blocks of the later media lines end the blocks of all of them. */
  lemma BlocksSuffix(medias: seq<string>, mid: nat, cands: seq<Candidate>, j: nat)
    requires medias != [] && j < |Blocks(medias[1..], mid + 1, cands)|
    ensures var bs, rest := Blocks(medias, mid, cands), Blocks(medias[1..], mid + 1, cands);
      && |rest| <= |bs|
      && bs[|bs| - |rest| + j] == rest[j]
  {
    BlocksStep(medias, mid, cands);
  }

  lemma {:induction false} BlocksLabelled(medias: seq<string>, mid: nat, cands: seq<Candidate>)
    ensures var bs := Blocks(medias, mid, cands);
      forall j :: 0 <= j < |bs| ==> Labelled(medias, mid, cands, bs[j])
    decreases |medias|
  {
    if medias != [] {
      BlocksStep(medias, mid, cands);
      BlocksLabelled(medias[1..], mid + 1, cands);
      var cs := CandidatesFor(cands, mid);
      var head := if cs == [] then [] else [Block(medias[0], mid, cs)];
      var rest := Blocks(medias[1..], mid + 1, cands);
      var bs := Blocks(medias, mid, cands);
      forall j | 0 <= j < |bs|
        ensures Labelled(medias, mid, cands, bs[j])
      {
        if j >= |head| {
          var b := rest[j - |head|];
          assert bs[j] == b;
          assert Labelled(medias[1..], mid + 1, cands, b);
          assert medias[1..][b.mid - (mid + 1)] == medias[b.mid - mid];
        }
      }
    }
  }

  lemma {:induction false} BlocksIncreasing(medias: seq<string>, mid: nat, cands: seq<Candidate>)
    ensures var bs := Blocks(medias, mid, cands);
      forall j :: 0 <= j < |bs| - 1 ==> bs[j].mid < bs[j + 1].mid
    decreases |medias|
  {
    if medias != [] {
      BlocksStep(medias, mid, cands);
      BlocksIncreasing(medias[1..], mid + 1, cands);
      BlocksLabelled(medias[1..], mid + 1, cands);
      var cs := CandidatesFor(cands, mid);
      var head := if cs == [] then [] else [Block(medias[0], mid, cs)];
      var rest := Blocks(medias[1..], mid + 1, cands);
      var bs := Blocks(medias, mid, cands);
      forall j | 0 <= j < |bs| - 1
        ensures bs[j].mid < bs[j + 1].mid
      {
        if j >= |head| {
          assert bs[j] == rest[j - |head|] && bs[j + 1] == rest[j + 1 - |head|];
        } else {
          assert Labelled(medias[1..], mid + 1, cands, rest[0]);
        }
      }
    }
  }

  function CandidateLines(cs: seq<Candidate>): (r: seq<string>)
    ensures |r| == |cs|
    ensures forall k :: 0 <= k < |cs| ==> r[k] == "a=" + cs[k].candidate
  {
    seq(|cs|, k requires 0 <= k < |cs| => "a=" + cs[k].candidate)
  }

  /** `m=<media>`, `a=mid:<index>`, then one `a=<candidate>` per candidate. */
  function BlockLines(b: Block): seq<string> {
    ["m=" + b.media, "a=mid:" + NatToString(b.mid)] + CandidateLines(b.candidates)
  }

  function LinesOfBlocks(bs: seq<Block>): seq<string>
    decreases |bs|
  {
    if bs == [] then [] else BlockLines(bs[0]) + LinesOfBlocks(bs[1..])
  }

  function HeaderLines(od: OfferData): seq<string> {
    ["a=ice-ufrag:" + od.iceUfrag, "a=ice-pwd:" + od.icePwd]
  }

  function FragmentLines(od: OfferData, cands: seq<Candidate>): seq<string> {
    HeaderLines(od) + LinesOfBlocks(Blocks(od.medias, 0, cands))
  }

  /** Every line followed by CRLF, as the source's `frag +=` steps build it. */
  function Terminated(lines: seq<string>): string
    decreases |lines|
  {
    if lines == [] then "" else lines[0] + CRLF + Terminated(lines[1..])
  }

  function GenerateSdpFragment(od: OfferData, cands: seq<Candidate>): string {
    Terminated(FragmentLines(od, cands))
  }

  // ---------------------------------------------------------------------
  // Every candidate of an existing media line is sent once

  /** The candidates whose media index lies in `lo..hi-1`, in arrival order. */
  function Window(cands: seq<Candidate>, lo: nat, hi: nat): seq<Candidate>
    decreases |cands|
  {
    if cands == [] then []
    else
      (if cands[0].sdpMLineIndex.Some? && lo <= cands[0].sdpMLineIndex.value < hi then [cands[0]] else [])
      + Window(cands[1..], lo, hi)
  }

  /** The candidates of all blocks, block by block. */
  function Flatten(bs: seq<Block>): seq<Candidate>
    decreases |bs|
  {
    if bs == [] then [] else bs[0].candidates + Flatten(bs[1..])
  }

  lemma {:induction false} FlattenConcat(a: seq<Block>, b: seq<Block>)
    ensures Flatten(a + b) == Flatten(a) + Flatten(b)
    decreases |a|
  {
    if a == [] {
      assert a + b == b;
    } else {
      assert (a + b)[1..] == a[1..] + b;
      FlattenConcat(a[1..], b);
    }
  }

  /** The window's lowest index contributes exactly its group. */
  lemma {:induction false} WindowSplit(cands: seq<Candidate>, lo: nat, hi: nat)
    requires lo < hi
    ensures multiset(Window(cands, lo, hi))
      == multiset(CandidatesFor(cands, lo)) + multiset(Window(cands, lo + 1, hi))
    decreases |cands|
  {
    if cands != [] {
      WindowSplit(cands[1..], lo, hi);
    }
  }

  lemma {:induction false} WindowEmpty(cands: seq<Candidate>, lo: nat)
    ensures Window(cands, lo, lo) == []
    decreases |cands|
  {
    if cands != [] {
      WindowEmpty(cands[1..], lo);
    }
  }

  lemma FlattenBlocksStep(medias: seq<string>, mid: nat, cands: seq<Candidate>)
    requires medias != []
    ensures Flatten(Blocks(medias, mid, cands))
      == CandidatesFor(cands, mid) + Flatten(Blocks(medias[1..], mid + 1, cands))
  {
    var cs := CandidatesFor(cands, mid);
    var rest := Blocks(medias[1..], mid + 1, cands);
    var head := if cs == [] then [] else [Block(medias[0], mid, cs)];
    assert Blocks(medias, mid, cands) == head + rest;
    FlattenConcat(head, rest);
    if cs != [] {
      assert Flatten(head) == cs + Flatten([]);
    } else {
      assert Flatten(head) == [];
    }
  }

  /** The fragment's blocks carry every candidate of an existing media
      line exactly once, and no other candidate. */
  lemma FragmentCarriesEachCandidateOnce(od: OfferData, cands: seq<Candidate>)
    ensures multiset(Flatten(Blocks(od.medias, 0, cands))) == multiset(Window(cands, 0, |od.medias|))
  {
    BlocksCover(od.medias, 0, |od.medias|, cands);
  }

  lemma {:induction false} BlocksCover(medias: seq<string>, mid: nat, hi: nat, cands: seq<Candidate>)
    requires hi == mid + |medias|
    ensures multiset(Flatten(Blocks(medias, mid, cands))) == multiset(Window(cands, mid, hi))
    decreases |medias|
  {
    if medias == [] {
      WindowEmpty(cands, mid);
    } else {
      var cs := CandidatesFor(cands, mid);
      var tail := Flatten(Blocks(medias[1..], mid + 1, cands));
      FlattenBlocksStep(medias, mid, cands);
      BlocksCover(medias[1..], mid + 1, hi, cands);
      WindowSplit(cands, mid, hi);
      assert multiset(cs + tail) == multiset(cs) + multiset(tail);
    }
  }

  /** The blocks depend only on the groups of the media indexes in range. */
  lemma {:induction false} BlocksDependOnGroups(medias: seq<string>, mid: nat, c1: seq<Candidate>, c2: seq<Candidate>)
    requires forall k :: mid <= k < mid + |medias| ==> CandidatesFor(c1, k) == CandidatesFor(c2, k)
    ensures Blocks(medias, mid, c1) == Blocks(medias, mid, c2)
    decreases |medias|
  {
    if medias != [] {
      BlocksDependOnGroups(medias[1..], mid + 1, c1, c2);
    }
  }

  lemma {:induction false} WindowKeepsGroup(cands: seq<Candidate>, lo: nat, hi: nat, k: nat)
    requires lo <= k < hi
    ensures CandidatesFor(Window(cands, lo, hi), k) == CandidatesFor(cands, k)
    decreases |cands|
  {
    if cands != [] {
      var c := cands[0];
      var w := Window(cands[1..], lo, hi);
      WindowKeepsGroup(cands[1..], lo, hi, k);
      if c.sdpMLineIndex.Some? && lo <= c.sdpMLineIndex.value < hi {
        assert Window(cands, lo, hi) == [c] + w;
        assert ([c] + w)[1..] == w;
      } else {
        assert Window(cands, lo, hi) == w;
        assert c.sdpMLineIndex != Some(k);
      }
    }
  }

  /** Candidates with a null index or an index past the last media line
      leave no trace in the fragment. */
  lemma FragmentIgnoresStrayCandidates(od: OfferData, cands: seq<Candidate>)
    ensures GenerateSdpFragment(od, cands) == GenerateSdpFragment(od, Window(cands, 0, |od.medias|))
  {
    forall k | 0 <= k < |od.medias|
      ensures CandidatesFor(Window(cands, 0, |od.medias|), k) == CandidatesFor(cands, k)
    {
      WindowKeepsGroup(cands, 0, |od.medias|, k);
    }
    BlocksDependOnGroups(od.medias, 0, cands, Window(cands, 0, |od.medias|));
  }

  // ---------------------------------------------------------------------
  // The fragment text

  /** Terminating every line with CRLF is joining with CRLF after adding
      an empty last line. */
  lemma {:induction false} TerminatedIsJoin(lines: seq<string>)
    ensures Terminated(lines) == Join(lines + [""], CRLF)
    decreases |lines|
  {
    if lines != [] {
      TerminatedIsJoin(lines[1..]);
      assert (lines + [""])[1..] == lines[1..] + [""];
      assert (lines + [""])[0] == lines[0];
    }
  }

  /** Fields that fit on one line. */
  predicate SingleLine(od: OfferData, cands: seq<Candidate>) {
    && '\n' !in od.iceUfrag && '\n' !in od.icePwd
    && (forall k :: 0 <= k < |od.medias| ==> '\n' !in od.medias[k])
    && (forall k :: 0 <= k < |cands| ==> '\n' !in cands[k].candidate)
  }

  lemma {:induction false} BlockLinesSingle(medias: seq<string>, mid: nat, cands: seq<Candidate>)
    requires forall k :: 0 <= k < |medias| ==> '\n' !in medias[k]
    requires forall k :: 0 <= k < |cands| ==> '\n' !in cands[k].candidate
    ensures forall k :: 0 <= k < |LinesOfBlocks(Blocks(medias, mid, cands))| ==>
      '\n' !in LinesOfBlocks(Blocks(medias, mid, cands))[k]
  {
    BlocksFacts(medias, mid, cands);
    var bs := Blocks(medias, mid, cands);
    forall j, k | 0 <= j < |bs| && 0 <= k < |bs[j].candidates|
      ensures bs[j].candidates[k] in cands
    {
      assert bs[j].candidates == CandidatesFor(cands, bs[j].mid);
    }
    LinesOfBlocksSingle(bs, cands);
  }

  lemma {:induction false} LinesOfBlocksSingle(bs: seq<Block>, cands: seq<Candidate>)
    requires forall j :: 0 <= j < |bs| ==> '\n' !in bs[j].media
    requires forall j, k :: 0 <= j < |bs| && 0 <= k < |bs[j].candidates| ==> bs[j].candidates[k] in cands
    requires forall k :: 0 <= k < |cands| ==> '\n' !in cands[k].candidate
    ensures forall k :: 0 <= k < |LinesOfBlocks(bs)| ==> '\n' !in LinesOfBlocks(bs)[k]
    decreases |bs|
  {
    if bs != [] {
      LinesOfBlocksSingle(bs[1..], cands);
      var b := bs[0];
      var ls := BlockLines(b);
      forall k | 0 <= k < |ls|
        ensures '\n' !in ls[k]
      {
        if k >= 2 {
          var c := b.candidates[k - 2];
          assert c in cands;
        }
      }
    }
  }

  /** With single-line fields the fragment splits back into its lines,
      followed by the empty text after the final CRLF. */
  lemma FragmentLinesSplit(od: OfferData, cands: seq<Candidate>)
    requires SingleLine(od, cands)
    ensures Split(GenerateSdpFragment(od, cands), CRLF) == FragmentLines(od, cands) + [""]
  {
    var parts := FragmentLines(od, cands) + [""];
    FragmentPartsFree(od, cands);
    TerminatedIsJoin(FragmentLines(od, cands));
    SeparatorsBorderless();
    SplitJoin(parts, CRLF);
  }

  lemma FragmentPartsFree(od: OfferData, cands: seq<Candidate>)
    requires SingleLine(od, cands)
    ensures var parts := FragmentLines(od, cands) + [""];
      forall k :: 0 <= k < |parts| ==> !Contains(parts[k], CRLF)
  {
    var lines := FragmentLines(od, cands);
    var body := LinesOfBlocks(Blocks(od.medias, 0, cands));
    BlockLinesSingle(od.medias, 0, cands);
    var parts := lines + [""];
    forall k | 0 <= k < |parts|
      ensures !Contains(parts[k], CRLF)
    {
      if k >= 2 && k < |lines| {
        assert parts[k] == body[k - 2];
      }
      NoLineFeedFree(parts[k]);
    }
  }

  /** The fragment opens with the credential lines, whatever the
      candidates. */
  lemma FragmentHeader(od: OfferData, cands: seq<Candidate>)
    ensures StartsWith(GenerateSdpFragment(od, cands),
                       "a=ice-ufrag:" + od.iceUfrag + CRLF + "a=ice-pwd:" + od.icePwd + CRLF)
  {
    var lines := FragmentLines(od, cands);
    var h := "a=ice-ufrag:" + od.iceUfrag + CRLF + "a=ice-pwd:" + od.icePwd + CRLF;
    assert lines[1..][1..] == lines[2..];
    assert Terminated(lines) == lines[0] + CRLF + (lines[1] + CRLF + Terminated(lines[2..]));
    assert Terminated(lines) == h + Terminated(lines[2..]);
  }

  /** A batch of one candidate of media line `k` yields that media's block
      alone. */
  lemma CandidatesForOne(c: Candidate, mid: nat)
    ensures CandidatesFor([c], mid) == if c.sdpMLineIndex == Some(mid) then [c] else []
  {
    assert [c][1..] == [];
  }

  lemma BlocksStep(medias: seq<string>, mid: nat, cands: seq<Candidate>)
    requires medias != []
    ensures var cs := CandidatesFor(cands, mid);
      Blocks(medias, mid, cands)
        == (if cs == [] then [] else [Block(medias[0], mid, cs)]) + Blocks(medias[1..], mid + 1, cands)
  {
  }

  lemma {:induction false} BlocksOfOneOutside(medias: seq<string>, mid: nat, c: Candidate)
    requires !(c.sdpMLineIndex.Some? && mid <= c.sdpMLineIndex.value < mid + |medias|)
    ensures Blocks(medias, mid, [c]) == []
    decreases |medias|
  {
    if medias != [] {
      CandidatesForOne(c, mid);
      BlocksOfOneOutside(medias[1..], mid + 1, c);
    }
  }

  lemma {:induction false} BlocksOfOneInside(medias: seq<string>, mid: nat, cs: seq<Candidate>, k: nat)
    requires |cs| == 1 && cs[0].sdpMLineIndex == Some(k) && mid <= k < mid + |medias|
    ensures Blocks(medias, mid, cs) == [Block(medias[k - mid], k, cs)]
    decreases |medias|, 1
  {
    if k == mid {
      BlocksOfOneHere(medias, mid, cs);
    } else {
      BlocksOfOneLater(medias, mid, cs, k);
    }
  }

  lemma BlocksOfOneHere(medias: seq<string>, mid: nat, cs: seq<Candidate>)
    requires |cs| == 1 && cs[0].sdpMLineIndex == Some(mid) && medias != []
    ensures Blocks(medias, mid, cs) == [Block(medias[0], mid, cs)]
  {
    assert cs == [cs[0]];
    CandidatesForOne(cs[0], mid);
    BlocksStep(medias, mid, cs);
    BlocksOfOneOutside(medias[1..], mid + 1, cs[0]);
    assert [Block(medias[0], mid, cs)] + [] == [Block(medias[0], mid, cs)];
  }

  lemma {:induction false} BlocksOfOneLater(medias: seq<string>, mid: nat, cs: seq<Candidate>, k: nat)
    requires |cs| == 1 && cs[0].sdpMLineIndex == Some(k) && mid < k < mid + |medias|
    ensures Blocks(medias, mid, cs) == [Block(medias[k - mid], k, cs)]
    decreases |medias|, 0
  {
    assert Blocks(medias[1..], mid + 1, cs) == [Block(medias[k - mid], k, cs)] by {
      BlocksOfOneInside(medias[1..], mid + 1, cs, k);
      assert medias[1..][k - (mid + 1)] == medias[k - mid];
    }
    assert cs == [cs[0]];
    CandidatesForOne(cs[0], mid);
    BlocksStep(medias, mid, cs);
    assert [] + Blocks(medias[1..], mid + 1, cs) == Blocks(medias[1..], mid + 1, cs);
  }

  /** The fragment for a single candidate: the credentials, then the block
      of its media line, or nothing more when its index is null or past the
      last media line. */
  lemma SingleCandidateFragment(od: OfferData, c: Candidate)
    ensures FragmentLines(od, [c])
      == HeaderLines(od)
         + if c.sdpMLineIndex.Some? && c.sdpMLineIndex.value < |od.medias|
           then ["m=" + od.medias[c.sdpMLineIndex.value], "a=mid:" + NatToString(c.sdpMLineIndex.value),
                 "a=" + c.candidate]
           else []
  {
    if c.sdpMLineIndex.Some? && c.sdpMLineIndex.value < |od.medias| {
      BlocksOfOneInside(od.medias, 0, [c], c.sdpMLineIndex.value);
    } else {
      BlocksOfOneOutside(od.medias, 0, c);
    }
    var bs := Blocks(od.medias, 0, [c]);
    if bs != [] {
      assert LinesOfBlocks(bs) == BlockLines(bs[0]) + LinesOfBlocks([]);
    }
  }

  /** Two media lines, one candidate each: the block of the first media
      line, then that of the second, after the credentials. */
  lemma TwoMediaFragment(od: OfferData, c0: Candidate, c1: Candidate)
    requires |od.medias| == 2 && c0.sdpMLineIndex == Some(0) && c1.sdpMLineIndex == Some(1)
    ensures FragmentLines(od, [c0, c1])
      == HeaderLines(od)
         + ["m=" + od.medias[0], "a=mid:" + NatToString(0), "a=" + c0.candidate,
            "m=" + od.medias[1], "a=mid:" + NatToString(1), "a=" + c1.candidate]
  {
    TwoBlocks(od.medias, c0, c1);
    var b0, b1 := Block(od.medias[0], 0, [c0]), Block(od.medias[1], 1, [c1]);
    assert [b0, b1][1..] == [b1] && [b1][1..] == [];
    assert LinesOfBlocks([b0, b1]) == BlockLines(b0) + (BlockLines(b1) + LinesOfBlocks([]));
    assert CandidateLines([c0]) == ["a=" + c0.candidate] && CandidateLines([c1]) == ["a=" + c1.candidate];
  }

  lemma TwoBlocks(medias: seq<string>, c0: Candidate, c1: Candidate)
    requires |medias| == 2 && c0.sdpMLineIndex == Some(0) && c1.sdpMLineIndex == Some(1)
    ensures Blocks(medias, 0, [c0, c1]) == [Block(medias[0], 0, [c0]), Block(medias[1], 1, [c1])]
  {
    var cands := [c0, c1];
    assert cands[1..] == [c1] && [c1][1..] == [];
    assert CandidatesFor(cands, 0) == [c0];
    assert CandidatesFor(cands, 1) == [c1];
    assert medias[1..] == [medias[1]] && medias[1..][1..] == [];
    assert Blocks(medias[1..], 1, cands) == [Block(medias[1], 1, [c1])] + Blocks([], 2, cands);
  }
}

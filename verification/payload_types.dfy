/** Allocation of dynamic RTP payload types (96..127, section 6 of RFC 3551)
    against the format list of an SDP media line. */
module PayloadTypes {
  import opened Results
  import opened Strings

  const MinDynamic: nat := 96
  const MaxDynamic: nat := 127
  const NoFreePayloadType: string := "unable to find a free payload type"

  /** The fmt list of a media line: every space-separated token after the
      third (`<media> <port> <proto> <fmt> ...`, section 5.14 of RFC 8866). */
  function FormatList(mediaLine: string): seq<string> {
    var tokens := Split(mediaLine, " ");
    if |tokens| < 3 then [] else tokens[3..]
  }

  /** The decimal rendering of `pt` is one of the listed formats. */
  predicate Listed(formats: seq<string>, pt: nat) {
    NatToString(pt) in formats
  }

  /** Ascending scan from `i` for the first value not listed. */
  function FirstFreeFrom(formats: seq<string>, i: nat): (r: Result<nat>)
    requires MinDynamic <= i <= MaxDynamic + 1
    decreases MaxDynamic + 1 - i
    ensures r.Ok? ==> i <= r.value <= MaxDynamic && !Listed(formats, r.value)
    ensures r.Ok? ==> forall j :: i <= j < r.value ==> Listed(formats, j)
    ensures r.Err? ==> r.message == NoFreePayloadType
    ensures r.Err? <==> forall j :: i <= j <= MaxDynamic ==> Listed(formats, j)
  {
    if i > MaxDynamic then Err(NoFreePayloadType)
    else if !Listed(formats, i) then Ok(i)
    else FirstFreeFrom(formats, i + 1)
  }

  /** The least dynamic payload type absent from the media line's format
      list, or the "no free payload type" failure when all 32 are taken.
      The value is returned as a number; callers render it with
      `NatToString`, as the source returns `i.toString()`. */
  function FindFreePayloadType(mediaLine: string): (r: Result<nat>)
    ensures r.Ok? ==> MinDynamic <= r.value <= MaxDynamic
    ensures r.Ok? ==> !Listed(FormatList(mediaLine), r.value)
    ensures r.Ok? ==> forall j :: MinDynamic <= j < r.value ==> Listed(FormatList(mediaLine), j)
    ensures r.Err? <==> forall j :: MinDynamic <= j <= MaxDynamic ==> Listed(FormatList(mediaLine), j)
  {
    FirstFreeFrom(FormatList(mediaLine), MinDynamic)
  }

  lemma ListedExtend(formats: seq<string>, pt: nat, j: nat)
    ensures Listed(formats + [NatToString(pt)], j) <==> Listed(formats, j) || j == pt
  {
    if NatToString(j) == NatToString(pt) {
      NatToStringInjective(j, pt);
    }
  }

  /** How many values from `i` up to 127 the format list leaves free. */
  function FreeCount(formats: seq<string>, i: nat): nat
    requires i <= MaxDynamic + 1
    decreases MaxDynamic + 1 - i
  {
    if i > MaxDynamic then 0
    else (if Listed(formats, i) then 0 else 1) + FreeCount(formats, i + 1)
  }

  /** No value is free from `i` on exactly when every one is listed. */
  lemma {:induction false} FreeCountZero(formats: seq<string>, i: nat)
    requires i <= MaxDynamic + 1
    ensures FreeCount(formats, i) == 0 <==> forall j :: i <= j <= MaxDynamic ==> Listed(formats, j)
    decreases MaxDynamic + 1 - i
  {
    if i <= MaxDynamic {
      FreeCountZero(formats, i + 1);
      assert (forall j :: i <= j <= MaxDynamic ==> Listed(formats, j))
        <==> Listed(formats, i) && forall j :: i + 1 <= j <= MaxDynamic ==> Listed(formats, j);
    }
  }

  /** Listing a free value `pt` takes one away from the free values from
      `i` on when `i <= pt`, and none otherwise. */
  lemma {:induction false} FreeCountGrown(formats: seq<string>, pt: nat, i: nat)
    requires i <= MaxDynamic + 1 && pt <= MaxDynamic && !Listed(formats, pt)
    ensures FreeCount(formats + [NatToString(pt)], i) == FreeCount(formats, i) - (if i <= pt then 1 else 0)
    decreases MaxDynamic + 1 - i
  {
    if i <= MaxDynamic {
      FreeCountGrown(formats, pt, i + 1);
      ListedExtend(formats, pt, i);
    }
  }

  /** Reference definition of `k` successive allocations, each one adding
      its value to the format list before the next scan. */
  function Allocate(formats: seq<string>, k: nat): (r: Result<seq<nat>>)
    decreases k
    ensures r.Ok? ==> |r.value| == k
    ensures r.Ok? ==> forall a :: 0 <= a < |r.value| ==>
      MinDynamic <= r.value[a] <= MaxDynamic && !Listed(formats, r.value[a])
    ensures r.Ok? ==> forall a, b :: 0 <= a < b < |r.value| ==> r.value[a] < r.value[b]
    ensures r.Ok? ==> forall a, j :: 0 <= a < |r.value| && MinDynamic <= j < r.value[a] ==>
      Listed(formats, j) || j in r.value[..a]
  {
    if k == 0 then Ok([])
    else
      match FirstFreeFrom(formats, MinDynamic)
      case Err(m) => Err(m)
      case Ok(pt) =>
        var grown := formats + [NatToString(pt)];
        match Allocate(grown, k - 1)
        case Err(m) => Err(m)
        case Ok(rest) =>
          AllocateStep(formats, pt, rest);
          Ok([pt] + rest)
  }

  /** The allocation fails, for want of a free payload type, exactly when
      fewer than `k` values in 96..127 are free. */
  lemma {:induction false} AllocateFails(formats: seq<string>, k: nat)
    ensures Allocate(formats, k).Err? <==> FreeCount(formats, MinDynamic) < k
    ensures Allocate(formats, k).Err? ==> Allocate(formats, k).message == NoFreePayloadType
    decreases k
  {
    if k > 0 {
      var first := FirstFreeFrom(formats, MinDynamic);
      if first.Err? {
        FreeCountZero(formats, MinDynamic);
        AllocateNoFirst(formats, k);
      } else {
        var grown := formats + [NatToString(first.value)];
        AllocateFails(grown, k - 1);
        AllocateFailsStep(formats, k, first.value);
      }
    }
  }

  lemma AllocateFailsStep(formats: seq<string>, k: nat, pt: nat)
    requires k > 0 && FirstFreeFrom(formats, MinDynamic) == Ok(pt)
    requires var grown := formats + [NatToString(pt)];
      && (Allocate(grown, k - 1).Err? <==> FreeCount(grown, MinDynamic) < k - 1)
      && (Allocate(grown, k - 1).Err? ==> Allocate(grown, k - 1).message == NoFreePayloadType)
    ensures Allocate(formats, k).Err? <==> FreeCount(formats, MinDynamic) < k
    ensures Allocate(formats, k).Err? ==> Allocate(formats, k).message == NoFreePayloadType
  {
    FreeCountGrown(formats, pt, MinDynamic);
    AllocateUnfold(formats, k, pt);
  }

  /** Without a first free value the allocation fails at once. */
  lemma AllocateNoFirst(formats: seq<string>, k: nat)
    requires k > 0 && FirstFreeFrom(formats, MinDynamic).Err?
    ensures Allocate(formats, k) == Err(NoFreePayloadType)
  {
  }

  /** After a first successful scan, the allocation fails exactly when the
      allocations against the grown list fail, and with their message. */
  lemma AllocateUnfold(formats: seq<string>, k: nat, pt: nat)
    requires k > 0 && FirstFreeFrom(formats, MinDynamic) == Ok(pt)
    ensures var rest := Allocate(formats + [NatToString(pt)], k - 1);
      && (Allocate(formats, k).Err? <==> rest.Err?)
      && (rest.Err? ==> Allocate(formats, k) == Err(rest.message))
  {
  }

  /** Gluing the first allocation in front of the allocations made against
      the grown list keeps every promise of `Allocate`. */
  lemma AllocateStep(formats: seq<string>, pt: nat, rest: seq<nat>)
    requires MinDynamic <= pt <= MaxDynamic && !Listed(formats, pt)
    requires forall j :: MinDynamic <= j < pt ==> Listed(formats, j)
    requires forall a :: 0 <= a < |rest| ==>
      MinDynamic <= rest[a] <= MaxDynamic && !Listed(formats + [NatToString(pt)], rest[a])
    requires forall a, b :: 0 <= a < b < |rest| ==> rest[a] < rest[b]
    requires forall a, j :: 0 <= a < |rest| && MinDynamic <= j < rest[a] ==>
      Listed(formats + [NatToString(pt)], j) || j in rest[..a]
    ensures var all := [pt] + rest;
      && (forall a :: 0 <= a < |all| ==> MinDynamic <= all[a] <= MaxDynamic && !Listed(formats, all[a]))
      && (forall a, b :: 0 <= a < b < |all| ==> all[a] < all[b])
      && (forall a, j :: 0 <= a < |all| && MinDynamic <= j < all[a] ==> Listed(formats, j) || j in all[..a])
  {
    var grown := formats + [NatToString(pt)];
    var all := [pt] + rest;
    forall j | 0 <= j
      ensures Listed(grown, j) <==> Listed(formats, j) || j == pt
    {
      ListedExtend(formats, pt, j);
    }
    assert forall a :: 0 <= a < |rest| ==> pt < rest[a];
    forall a, j | 0 <= a < |all| && MinDynamic <= j < all[a]
      ensures Listed(formats, j) || j in all[..a]
    {
      if a > 0 {
        assert all[..a] == [pt] + rest[..a - 1];
      }
    }
  }
}

/** The grid distribution of one dimension: a run-length list of subdomain extents. */
module GridDistribution {
  import opened Arithmetic
  import opened GridDistributionText

  // ---------------------------------------------------------------- the expanded list

  function Repeat(extent: nat, count: nat): (r: seq<nat>)
    ensures |r| == count
  {
    seq(count, _ => extent)
  }

  /** One extent for every device. */
  function Expand(list: seq<Subdomains>): seq<nat> {
    if list == [] then [] else Repeat(list[0].extent, list[0].count) + Expand(list[1..])
  }

  function Sum(s: seq<nat>): nat {
    if s == [] then 0 else s[0] + Sum(s[1..])
  }

  lemma {:induction false} SumConcat(a: seq<nat>, b: seq<nat>)
    ensures Sum(a + b) == Sum(a) + Sum(b)
  {
    if a == [] {
      assert a + b == b;
    } else {
      SumConcat(a[1..], b);
      assert (a + b)[1..] == a[1..] + b;
    }
  }

  lemma {:induction false} SumRepeat(extent: nat, count: nat)
    ensures Sum(Repeat(extent, count)) == extent * count
  {
    if count > 0 {
      SumRepeat(extent, count - 1);
      assert Repeat(extent, count)[1..] == Repeat(extent, count - 1);
      assert extent * count == extent + extent * (count - 1);
    }
  }

  /** The cells before device `d`. */
  function Before(list: seq<Subdomains>, d: nat): nat
    requires d <= |Expand(list)|
  {
    Sum(Expand(list)[..d])
  }

  // ---------------------------------------------------------------- queries

  lemma {:induction false} ExpandSplit(list: seq<Subdomains>, k: nat)
    requires k <= |list|
    ensures Expand(list) == Expand(list[..k]) + Expand(list[k..])
  {
    if k == 0 {
      assert list[..0] == [] && list[0..] == list;
    } else {
      ExpandSplit(list[1..], k - 1);
      assert list[..k][1..] == list[1..][..k - 1] && list[1..][k - 1..] == list[k..];
      assert list[..k][0] == list[0];
    }
  }

  lemma ExpandSnoc(list: seq<Subdomains>, k: nat)
    requires k < |list|
    ensures Expand(list[..k + 1]) == Expand(list[..k]) + Repeat(list[k].extent, list[k].count)
    ensures Sum(Expand(list[..k + 1])) == Sum(Expand(list[..k])) + list[k].extent * list[k].count
  {
    ExpandSplit(list[..k + 1], k);
    assert list[..k + 1][..k] == list[..k] && list[..k + 1][k..] == [list[k]];
    assert Expand([list[k]]) == Repeat(list[k].extent, list[k].count) + Expand([]);
    SumRepeat(list[k].extent, list[k].count);
    SumConcat(Expand(list[..k]), Repeat(list[k].extent, list[k].count));
  }

  /** A prefix of the list covers a prefix of the devices and of the cells. */
  lemma ExpandPrefix(list: seq<Subdomains>, k: nat)
    requires k <= |list|
    ensures Expand(list[..k]) <= Expand(list)
    ensures Sum(Expand(list[..k])) <= Sum(Expand(list))
  {
    ExpandSplit(list, k);
    SumConcat(Expand(list[..k]), Expand(list[k..]));
  }

  /** The device `n` into entry `k` has the entry's extent. */
  lemma CoveredDevice(list: seq<Subdomains>, k: nat, n: nat, d: nat)
    requires k < |list| && n < list[k].count && d == |Expand(list[..k])| + n
    ensures d < |Expand(list)| && Expand(list)[d] == list[k].extent
    ensures Before(list, d) == Sum(Expand(list[..k])) + list[k].extent * n
  {
    ExpandSnoc(list, k);
    ExpandPrefix(list, k + 1);
    var before := Expand(list[..k]);
    assert Expand(list)[..d] == before + Repeat(list[k].extent, n);
    SumConcat(before, Repeat(list[k].extent, n));
    SumRepeat(list[k].extent, n);
  }

  /** Devices and cells of the first `k` entries. */
  ghost function Devices(list: seq<Subdomains>, k: nat): nat
    requires k <= |list|
  {
    if k == 0 then 0 else Devices(list, k - 1) + list[k - 1].count
  }

  ghost function Cells(list: seq<Subdomains>, k: nat): nat
    requires k <= |list|
  {
    if k == 0 then 0 else Cells(list, k - 1) + list[k - 1].extent * list[k - 1].count
  }

  lemma {:induction false} PrefixTotals(list: seq<Subdomains>, k: nat)
    requires k <= |list|
    ensures Devices(list, k) == |Expand(list[..k])| && Cells(list, k) == Sum(Expand(list[..k]))
    ensures Devices(list, k) <= |Expand(list)| && Cells(list, k) <= Sum(Expand(list))
  {
    ExpandPrefix(list, k);
    if k > 0 {
      PrefixTotals(list, k - 1);
      ExpandSnoc(list, k - 1);
    }
  }

  lemma Totals(list: seq<Subdomains>)
    ensures Devices(list, |list|) == |Expand(list)| && Cells(list, |list|) == Sum(Expand(list))
  {
    PrefixTotals(list, |list|);
    assert list[..|list|] == list;
  }

  lemma InsideEntry(list: seq<Subdomains>, k: nat, n: nat, devicePos: nat)
    requires k < |list| && n < list[k].count && devicePos == Devices(list, k) + n
    ensures devicePos < |Expand(list)| && Expand(list)[devicePos] == list[k].extent
    ensures Before(list, devicePos) == Cells(list, k) + list[k].extent * n
  {
    PrefixTotals(list, k);
    CoveredDevice(list, k, n, devicePos);
  }

  /** The device is in the list, and no device number exceeds 32 bits. */
  ghost predicate Fits(list: seq<Subdomains>, devicePos: nat) {
    devicePos < Devices(list, |list|) < WORD
  }

  lemma WrapDown(x: nat)
    requires x < WORD
    ensures Wrap(x - WORD) == x
  {
  }

  lemma {:induction false} PrefixFits(list: seq<Subdomains>, k: nat)
    requires k <= |list| && Devices(list, |list|) < WORD
    ensures Devices(list, k) < WORD
    decreases |list| - k
  {
    if k < |list| { PrefixFits(list, k + 1); }
  }

  /** Where the search for a device stands: at entry `iter`, whose last device is `i`.  An
      empty first entry wraps around and ends the search at once. */
  ghost predicate Searching(list: seq<Subdomains>, devicePos: nat, iter: nat, i: nat) {
    && iter < |list|
    && (list[0].count >= 1 ==> i == Devices(list, iter + 1) - 1 && Devices(list, iter) <= devicePos)
    && (list[0].count == 0 ==> iter == 0 && i == WORD - 1)
  }

  lemma SearchStarts(list: seq<Subdomains>, devicePos: nat)
    requires list != [] && Fits(list, devicePos)
    ensures Searching(list, devicePos, 0, Wrap(list[0].count - 1))
  {
    PrefixFits(list, 1);
    assert Devices(list, 1) == Devices(list, 0) + list[0].count;
    if list[0].count >= 1 { WrapSmall(list[0].count - 1); }
  }

  lemma SearchGoesOn(list: seq<Subdomains>, devicePos: nat, iter: nat, i: nat)
    requires Fits(list, devicePos) && Searching(list, devicePos, iter, i) && i < devicePos
    ensures iter + 1 < |list| && Searching(list, devicePos, iter + 1, Wrap(i + list[iter + 1].count))
  {
    assert iter + 1 < |list|;
    PrefixFits(list, iter + 2);
    WrapSmall(i + list[iter + 1].count);
  }

  lemma SearchEnds(list: seq<Subdomains>, devicePos: nat, iter: nat, i: nat, inside: nat)
    requires devicePos < WORD && Searching(list, devicePos, iter, i) && devicePos <= i
    requires inside == Wrap(devicePos + list[iter].count - i - 1)
    ensures list[0].count >= 1 ==> inside < list[iter].count && devicePos == Devices(list, iter) + inside
    ensures list[0].count == 0 ==> iter == 0 && inside == devicePos
  {
    if list[0].count >= 1 {
      WrapSmall(devicePos - Devices(list, iter));
    } else {
      WrapDown(devicePos);
    }
  }

  lemma CountNext(list: seq<Subdomains>, k: nat, n: nat)
    requires k < |list| && n == Wrap(Devices(list, k))
    ensures Wrap(n + list[k].count) == Wrap(Devices(list, k + 1))
  {
    WrapAdd(Devices(list, k), list[k].count);
  }

  /** What the queries answer for a device: an empty first entry is taken for one that covers
      all devices. */
  function AnsweredSize(list: seq<Subdomains>, d: nat): nat
    requires list != [] && d < |Expand(list)|
  {
    if list[0].count >= 1 then Expand(list)[d] else list[0].extent
  }

  function AnsweredOffset(list: seq<Subdomains>, d: nat): nat
    requires list != [] && d < |Expand(list)|
  {
    Wrap(if list[0].count >= 1 then Before(list, d) else list[0].extent * d)
  }

  /** The end of the query: the cells of the entries passed over, and of those before the device
      in its own. */
  lemma OffsetFound(list: seq<Subdomains>, devicePos: nat, iter: nat, i: nat, inside: nat, sum: nat, area: nat)
    requires list != [] && Fits(list, devicePos) && Searching(list, devicePos, iter, i) && devicePos <= i
    requires inside == Wrap(devicePos + list[iter].count - i - 1)
    requires sum == Wrap(Cells(list, iter)) && area == list[iter].extent * inside
    ensures devicePos < |Expand(list)| && Wrap(sum + Wrap(area)) == AnsweredOffset(list, devicePos)
  {
    Totals(list);
    SearchEnds(list, devicePos, iter, i, inside);
    WrapAdd(Cells(list, iter), area);
    if list[0].count >= 1 { InsideEntry(list, iter, inside, devicePos); }
  }

  class ParserGridDistribution {
    const parsedInput: seq<Subdomains>

    constructor (parsedInput: seq<Subdomains>)
      ensures this.parsedInput == parsedInput
    {
      this.parsedInput := parsedInput;
    }

    /** The parser of a text.  A number that does not fit 64 bits is an exception, and there is
        no parser then. */
    static method FromText(s: string) returns (r: Result<ParserGridDistribution>)
      ensures r.Ok? <==> ParseTokens(Tokens(s)).Ok?
      ensures r.Ok? ==> Ok(r.value.parsedInput) == ParseTokens(Tokens(s))
    {
      var list := Parse(s);
      if list.Failed? { return Failed; }
      var parser := new ParserGridDistribution(list.value);
      r := Ok(parser);
    }

    /** A device of the list, whose devices can be counted in 32 bits. */
    ghost predicate HasDevice(devicePos: nat) {
      parsedInput != [] && devicePos < |Expand(parsedInput)| < WORD
    }

    /** The entry of a device, and the entry's last device. */
    method Seek(devicePos: nat) returns (iter: nat, i: nat)
      requires parsedInput != [] && Fits(parsedInput, devicePos)
      ensures Searching(parsedInput, devicePos, iter, i) && devicePos <= i
    {
      iter, i := 0, Wrap(parsedInput[0].count - 1);
      SearchStarts(parsedInput, devicePos);
      while i < devicePos
        invariant Searching(parsedInput, devicePos, iter, i)
        decreases |parsedInput| - iter
      {
        SearchGoesOn(parsedInput, devicePos, iter, i);
        iter := iter + 1;
        i := Wrap(i + parsedInput[iter].count);
      }
    }

    /** The extent of a device's subdomain. */
    method GetLocalSize(devicePos: nat) returns (size: nat)
      requires HasDevice(devicePos)
      ensures size == AnsweredSize(parsedInput, devicePos)
    {
      Totals(parsedInput);
      var iter, i := Seek(devicePos);
      ghost var inside := Wrap(devicePos + parsedInput[iter].count - i - 1);
      SearchEnds(parsedInput, devicePos, iter, i, inside);
      if parsedInput[0].count >= 1 { InsideEntry(parsedInput, iter, inside, devicePos); }
      size := parsedInput[iter].extent;
    }

    /** Adding the cells of one entry, in 32-bit arithmetic. */
    method AddCells(k: nat, sum: nat) returns (r: nat)
      requires k < |parsedInput| && sum == Wrap(Cells(parsedInput, k))
      ensures r == Wrap(Cells(parsedInput, k + 1))
    {
      var area := parsedInput[k].extent * parsedInput[k].count;
      WrapAdd(Cells(parsedInput, k), area);
      r := Wrap(sum + Wrap(area));
    }

    /** The same search, and the cells of the entries passed over. */
    method SeekCells(devicePos: nat) returns (iter: nat, i: nat, sum: nat)
      requires parsedInput != [] && Fits(parsedInput, devicePos)
      ensures Searching(parsedInput, devicePos, iter, i) && devicePos <= i && sum == Wrap(Cells(parsedInput, iter))
    {
      iter, i, sum := 0, Wrap(parsedInput[0].count - 1), 0;
      SearchStarts(parsedInput, devicePos);
      WrapSmall(0);
      while i < devicePos
        invariant Searching(parsedInput, devicePos, iter, i)
        invariant sum == Wrap(Cells(parsedInput, iter))
        decreases |parsedInput| - iter
      {
        SearchGoesOn(parsedInput, devicePos, iter, i);
        sum := AddCells(iter, sum);
        iter := iter + 1;
        i := Wrap(i + parsedInput[iter].count);
      }
    }

    method TotalCells() returns (sumTotal: nat)
      ensures sumTotal == Wrap(Sum(Expand(parsedInput)))
    {
      Totals(parsedInput);
      WrapSmall(0);
      sumTotal := 0;
      for k := 0 to |parsedInput|
        invariant sumTotal == Wrap(Cells(parsedInput, k))
      {
        sumTotal := AddCells(k, sumTotal);
      }
    }

    /** The number of cells before a device's subdomain, if the total is as expected; both
        modulo 2^32. */
    method GetOffset(devicePos: nat, maxCells: nat) returns (r: Result<nat>)
      requires HasDevice(devicePos)
      ensures r.Ok? <==> Wrap(Sum(Expand(parsedInput))) == maxCells
      ensures r.Ok? ==> r.value == AnsweredOffset(parsedInput, devicePos)
    {
      Totals(parsedInput);
      var iter, i, sum := SeekCells(devicePos);
      var inside := Wrap(devicePos + parsedInput[iter].count - i - 1);
      var area := parsedInput[iter].extent * inside;
      OffsetFound(parsedInput, devicePos, iter, i, inside, sum, area);
      sum := Wrap(sum + Wrap(area));
      var sumTotal := TotalCells();
      r := if sumTotal == maxCells then Ok(sum) else Failed;
    }

    /** Whether the list has one subdomain for each device, modulo 2^32. */
    method VerifyDevices(numDevices: nat) returns (ok: bool)
      ensures ok <==> Wrap(|Expand(parsedInput)|) == numDevices
    {
      Totals(parsedInput);
      WrapSmall(0);
      var numSubdomains := 0;
      for k := 0 to |parsedInput|
        invariant numSubdomains == Wrap(Devices(parsedInput, k))
      {
        CountNext(parsedInput, k, numSubdomains);
        numSubdomains := Wrap(numSubdomains + parsedInput[k].count);
      }
      ok := numSubdomains == numDevices;
    }
  }

  /** As long as the cells can be counted in 32 bits, nothing is lost. */
  lemma OffsetsAreExact(list: seq<Subdomains>, d: nat)
    requires d <= |Expand(list)| && Sum(Expand(list)) < WORD
    ensures Wrap(Before(list, d)) == Before(list, d) && Wrap(Sum(Expand(list))) == Sum(Expand(list))
  {
    assert Expand(list) == Expand(list)[..d] + Expand(list)[d..];
    SumConcat(Expand(list)[..d], Expand(list)[d..]);
    WrapSmall(Before(list, d));
    WrapSmall(Sum(Expand(list)));
  }

  /** Both answers are those of the expanded list, offsets modulo 2^32. */
  ghost predicate AnswersRight(list: seq<Subdomains>, d: nat)
    requires list != [] && d < |Expand(list)|
  {
    AnsweredSize(list, d) == Expand(list)[d] && AnsweredOffset(list, d) == Wrap(Before(list, d))
  }

  lemma {:induction false} SumOfEqual(s: seq<nat>, extent: nat)
    requires forall i :: 0 <= i < |s| ==> s[i] == extent
    ensures Sum(s) == extent * |s|
  {
    assert s == Repeat(extent, |s|);
    SumRepeat(extent, |s|);
  }

  /** All devices are answered right exactly if the first entry is not empty, or every subdomain
      has its extent. */
  lemma AnswersRightIff(list: seq<Subdomains>)
    requires list != []
    ensures (forall d :: 0 <= d < |Expand(list)| ==> AnswersRight(list, d))
       <==> list[0].count >= 1 || forall d :: 0 <= d < |Expand(list)| ==> Expand(list)[d] == list[0].extent
  {
    if forall d :: 0 <= d < |Expand(list)| ==> Expand(list)[d] == list[0].extent {
      forall d | 0 <= d < |Expand(list)| ensures AnswersRight(list, d) {
        SumOfEqual(Expand(list)[..d], list[0].extent);
      }
    } else {
      var d :| 0 <= d < |Expand(list)| && Expand(list)[d] != list[0].extent;
      assert list[0].count == 0 ==> !AnswersRight(list, d);
    }
  }

  // ---------------------------------------------------------------- tiling

  lemma BeforeNext(list: seq<Subdomains>, d: nat)
    requires d < |Expand(list)|
    ensures Before(list, d + 1) == Before(list, d) + Expand(list)[d]
  {
    var s := Expand(list);
    assert s[..d + 1] == s[..d] + [s[d]];
    SumConcat(s[..d], [s[d]]);
    assert Sum([s[d]]) == s[d] + Sum([s[d]][1..]);
  }

  lemma {:induction false} BeforeMonotone(list: seq<Subdomains>, a: nat, b: nat)
    requires a <= b <= |Expand(list)|
    ensures Before(list, a) <= Before(list, b)
    decreases b
  {
    if a < b {
      BeforeMonotone(list, a, b - 1);
      BeforeNext(list, b - 1);
    }
  }

  /** Device `d`'s subdomain contains cell `x`. */
  ghost predicate Owns(list: seq<Subdomains>, d: nat, x: nat) {
    d < |Expand(list)| && Before(list, d) <= x < Before(list, d) + Expand(list)[d]
  }

  lemma {:induction false} Owner(list: seq<Subdomains>, x: nat, n: nat) returns (d: nat)
    requires n <= |Expand(list)| && x < Before(list, n)
    ensures Owns(list, d, x)
  {
    assert n > 0;
    BeforeNext(list, n - 1);
    if x < Before(list, n - 1) {
      d := Owner(list, x, n - 1);
    } else {
      d := n - 1;
    }
  }

  /** The subdomains tile the grid: every cell belongs to exactly one device. */
  lemma SubdomainsTile(list: seq<Subdomains>, x: nat)
    ensures (exists d: nat :: Owns(list, d, x)) <==> x < Sum(Expand(list))
    ensures forall d: nat, e: nat :: Owns(list, d, x) && Owns(list, e, x) ==> d == e
  {
    var n := |Expand(list)|;
    assert Expand(list)[..n] == Expand(list);
    if x < Sum(Expand(list)) {
      var d := Owner(list, x, n);
    }
    forall d: nat, e: nat | Owns(list, d, x) && Owns(list, e, x) ensures d == e {
      BeforeNext(list, d);
      BeforeNext(list, e);
      if d < e { BeforeMonotone(list, d + 1, e); } else if e < d { BeforeMonotone(list, e + 1, d); }
    }
    forall d: nat | Owns(list, d, x) ensures x < Sum(Expand(list)) {
      BeforeNext(list, d);
      BeforeMonotone(list, d + 1, n);
    }
  }

  // ---------------------------------------------------------------- from text to subdomains

  /** What the simulation learns of a device's subdomain from the text of any matches, with
      anything without digits around them: that there is one for each device, and the extent and
      offset that the numbers say. */
  method FromWritten(lead: string, items: seq<Item>, gaps: seq<string>, device: nat, devices: nat, cells: nat)
    returns (ok: bool, size: nat, offset: Result<nat>)
    requires IsGap(lead) && GapsOk(items, gaps) && AllMean(items) && items != [] && Meanings(items)[0].count >= 1
    requires device < devices == |Expand(Meanings(items))| < WORD && cells == Sum(Expand(Meanings(items))) < WORD
    ensures var list := Meanings(items);
            ok && size == Expand(list)[device] && offset == Ok(Before(list, device))
  {
    ghost var list := Meanings(items);
    ParseText(lead, items, gaps);
    OffsetsAreExact(list, device);
    WrapSmall(devices);
    var parser := ParserGridDistribution.FromText(lead + TextOf(items, gaps));
    ok := parser.value.VerifyDevices(devices);
    size := parser.value.GetLocalSize(device);
    offset := parser.value.GetOffset(device, cells);
  }

  /** The same for a printed list. */
  method FromPrinted(list: seq<Subdomains>, explicit: seq<bool>, device: nat)
    returns (ok: bool, size: nat, offset: Result<nat>)
    requires |explicit| == |list| > 0 && list[0].count >= 1
    requires forall k :: 0 <= k < |list| ==> list[k].extent < WORD && list[k].count < WORD
    requires device < |Expand(list)| < WORD && Sum(Expand(list)) < WORD
    ensures ok && size == Expand(list)[device] && offset == Ok(Before(list, device))
  {
    PrintIsText(list, explicit);
    var devices, cells := |Expand(list)|, Sum(Expand(list));
    ok, size, offset := FromWritten("", Entries(list, explicit), Commas(|list|), device, devices, cells);
  }

  /** One device with seven cells, after an empty entry: its size is answered as five. */
  method EmptyFirstEntryFails() returns (list: seq<Subdomains>, size: nat)
    ensures Expand(list) == [7] && size == 5
  {
    list := [Subdomains(5, 0), Subdomains(7, 1)];
    assert Expand(list[1..]) == Repeat(7, 1) + Expand(list[1..][1..]);
    assert Expand(list) == Repeat(5, 0) + Expand(list[1..]) == [7];
    ParseUndoesPrint(list, [true, false]);
    var parser := ParserGridDistribution.FromText(Print(list, [true, false]));
    size := parser.value.GetLocalSize(0);
  }
}

/** The free space a job needs, one row per volume. */
module Storage {
  import opened Common
  import opened Games

  /** A mounted volume and the free space read from it. */
  datatype Volume = Volume(identity: string, path: Path, available: u64)

  datatype Requirement = Requirement(volume: Volume, additional: u64, headroom: u64, reasons: seq<string>)

  const MINIMUM_HEADROOM: u64 := 64 * 1024 * 1024

  function Headroom(bytes: u64): u64 {
    Max(bytes / 20, MINIMUM_HEADROOM)
  }

  function FindRow(rows: seq<Requirement>, identity: string): (r: Option<nat>)
    ensures r.Some? ==> r.value < |rows| && rows[r.value].volume.identity == identity
    ensures r.None? ==> forall i | 0 <= i < |rows| :: rows[i].volume.identity != identity
  {
    if rows == [] then None
    else if rows[0].volume.identity == identity then Some(0)
    else match FindRow(rows[1..], identity) case Some(i) => Some(i + 1) case None => None
  }

  datatype Addition = Addition(volume: Volume, bytes: u64, reason: string)

  function Grown(row: Requirement, a: Addition): Result<Requirement> {
    var total := row.additional + a.bytes;
    if total > U64_MAX then Err
    else
      var volume := row.volume.(available := Min(row.volume.available, a.volume.available));
      Ok(Requirement(volume, total, Headroom(total), row.reasons + [a.reason]))
  }

  function WithAddition(rows: seq<Requirement>, a: Addition): Result<seq<Requirement>> {
    match FindRow(rows, a.volume.identity)
    case None => Ok(rows + [Requirement(a.volume, a.bytes, Headroom(a.bytes), [a.reason])])
    case Some(i) => (match Grown(rows[i], a) case Ok(row) => Ok(rows[i := row]) case Err => Err)
  }

  predicate Fits(row: Requirement, available: u64) {
    row.additional + row.headroom <= available
  }

  predicate FitsNow(row: Requirement, now: Path -> Option<Volume>) {
    var volume := now(row.volume.path);
    volume.Some? && volume.value.identity == row.volume.identity && Fits(row, volume.value.available)
  }

  class SpacePlan {
    var rows: seq<Requirement>

    constructor ()
      ensures rows == []
    {
      rows := [];
    }

    /** Adds a requirement, or fails on overflow and leaves the plan as it was. */
    method Add(a: Addition) returns (ok: bool)
      modifies this
      ensures ok ==> WithAddition(old(rows), a) == Ok(rows)
      ensures !ok ==> WithAddition(old(rows), a) == Err && rows == old(rows)
    {
      var at := FindRow(rows, a.volume.identity);
      if at.None? {
        rows := rows + [Requirement(a.volume, a.bytes, Headroom(a.bytes), [a.reason])];
        return true;
      }
      var row := rows[at.value];
      if row.additional + a.bytes > U64_MAX {
        return false;
      }
      row := row.(additional := row.additional + a.bytes);
      row := row.(volume := row.volume.(available := Min(row.volume.available, a.volume.available)));
      row := row.(headroom := Headroom(row.additional));
      row := row.(reasons := row.reasons + [a.reason]);
      rows := rows[at.value := row];
      return true;
    }

    /** `check`: against the readings in the plan. */
    method Check() returns (ok: bool)
      ensures ok <==> forall row | row in rows :: Fits(row, row.volume.available)
    {
      for i := 0 to |rows|
        invariant forall k | 0 <= k < i :: Fits(rows[k], rows[k].volume.available)
      {
        var needed := rows[i].additional + rows[i].headroom;
        if needed > U64_MAX || rows[i].volume.available < needed {
          return false;
        }
      }
      return true;
    }

    /** `recheck`: against what the same mount points report now. */
    method Recheck(now: Path -> Option<Volume>) returns (ok: bool)
      ensures ok <==> forall row | row in rows :: FitsNow(row, now)
    {
      var current := rows;
      for i := 0 to |rows|
        invariant |current| == |rows|
        invariant forall k | 0 <= k < i :: now(rows[k].volume.path) == Some(current[k].volume)
        invariant forall k | 0 <= k < i :: current[k].volume.identity == rows[k].volume.identity
        invariant forall k | 0 <= k < |rows| ::
                    current[k].additional == rows[k].additional && current[k].headroom == rows[k].headroom
        invariant forall k | i <= k < |rows| :: current[k] == rows[k]
      {
        var volume := now(current[i].volume.path);
        if volume.None? || volume.value.identity != current[i].volume.identity {
          assert rows[i] in rows;
          return false;
        }
        current := current[i := current[i].(volume := volume.value)];
      }
      assert forall k | 0 <= k < |rows| :: FitsNow(rows[k], now) <==> Fits(current[k], current[k].volume.available);
      var plan := new SpacePlan();
      plan.rows := current;
      ok := plan.Check();
      assert forall k | 0 <= k < |rows| :: current[k] in current && rows[k] in rows;
    }
  }

  // ---------------------------------------------------------------- plans as lists of additions

  /** A plan built one addition at a time, given up at the first failure. */
  function Planned(adds: seq<Addition>): Result<seq<Requirement>> {
    if adds == [] then Ok([])
    else match Planned(adds[..|adds| - 1]) case Err => Err case Ok(rows) => WithAddition(rows, adds[|adds| - 1])
  }

  /** The bytes asked of one volume. */
  function Asked(adds: seq<Addition>, identity: string): nat {
    if adds == [] then 0
    else Asked(adds[..|adds| - 1], identity) + BytesOf(adds[|adds| - 1], identity)
  }

  function BytesOf(a: Addition, identity: string): nat {
    if a.volume.identity == identity then a.bytes else 0
  }

  predicate Mentions(adds: seq<Addition>, identity: string) {
    exists a | a in adds :: a.volume.identity == identity
  }

  /** `x` is the lowest free-space reading of the volume. */
  predicate Lowest(adds: seq<Addition>, identity: string, x: u64) {
    && (exists a | a in adds :: a.volume.identity == identity && a.volume.available == x)
    && (forall a | a in adds && a.volume.identity == identity :: x <= a.volume.available)
  }

  predicate OneRowEach(rows: seq<Requirement>) {
    forall i, j | 0 <= i < j < |rows| :: rows[i].volume.identity != rows[j].volume.identity
  }

  /** Why one volume is asked, in order. */
  function Reasons(adds: seq<Addition>, identity: string): seq<string> {
    if adds == [] then []
    else
      var last := adds[|adds| - 1];
      Reasons(adds[..|adds| - 1], identity) + if last.volume.identity == identity then [last.reason] else []
  }

  /** The mount point under which the volume was mentioned first. */
  predicate FirstMountedAt(adds: seq<Addition>, identity: string, path: Path) {
    exists k | 0 <= k < |adds| ::
      && adds[k].volume.identity == identity && adds[k].volume.path == path
      && forall j | 0 <= j < k :: adds[j].volume.identity != identity
  }

  predicate RowIs(adds: seq<Addition>, row: Requirement) {
    && FirstMountedAt(adds, row.volume.identity, row.volume.path)
    && row.reasons == Reasons(adds, row.volume.identity)
    && row.additional == Asked(adds, row.volume.identity)
    && row.headroom == Headroom(row.additional)
    && Lowest(adds, row.volume.identity, row.volume.available)
  }

  /** One row for each volume mentioned, with its total, headroom and lowest reading. */
  ghost predicate Tallies(adds: seq<Addition>, rows: seq<Requirement>) {
    && OneRowEach(rows)
    && (forall id :: Mentions(adds, id) <==> FindRow(rows, id).Some?)
    && (forall i | 0 <= i < |rows| :: RowIs(adds, rows[i]))
  }

  ghost predicate Overflows(adds: seq<Addition>) {
    exists id :: Asked(adds, id) > U64_MAX
  }

  lemma {:induction false} NothingAsked(adds: seq<Addition>, identity: string)
    requires !Mentions(adds, identity)
    ensures Asked(adds, identity) == 0
    decreases |adds|
  {
    if adds != [] {
      assert forall a | a in adds[..|adds| - 1] :: a in adds;
      assert adds[|adds| - 1] in adds;
      NothingAsked(adds[..|adds| - 1], identity);
    }
  }

  /** What one more addition changes: only its own volume. */
  lemma OneMore(adds: seq<Addition>, a: Addition, id: string)
    ensures Asked(adds + [a], id) == Asked(adds, id) + BytesOf(a, id)
    ensures Mentions(adds + [a], id) <==> Mentions(adds, id) || a.volume.identity == id
    ensures forall x: u64 :: Lowest(adds, id, x) ==>
              Lowest(adds + [a], id, if a.volume.identity == id then Min(x, a.volume.available) else x)
    ensures a.volume.identity == id && !Mentions(adds, id) ==> Lowest(adds + [a], id, a.volume.available)
  {
    assert (adds + [a])[..|adds|] == adds;
    assert forall b :: b in adds + [a] <==> b in adds || b == a;
  }

  lemma MountStays(adds: seq<Addition>, a: Addition, id: string, path: Path)
    ensures FirstMountedAt(adds, id, path) ==> FirstMountedAt(adds + [a], id, path)
    ensures !Mentions(adds, id) && a.volume.identity == id ==> FirstMountedAt(adds + [a], id, a.volume.path)
    ensures Reasons(adds + [a], id) == Reasons(adds, id) + if a.volume.identity == id then [a.reason] else []
    ensures !Mentions(adds, id) ==> Reasons(adds, id) == []
  {
    var more := adds + [a];
    assert more[..|adds|] == adds;
    if FirstMountedAt(adds, id, path) {
      var k :| 0 <= k < |adds| && adds[k].volume.identity == id && adds[k].volume.path == path
        && forall j | 0 <= j < k :: adds[j].volume.identity != id;
      assert more[k] == adds[k];
    }
    assert forall j | 0 <= j < |adds| :: adds[j] in adds;
    assert more[|adds|] == a;
    if !Mentions(adds, id) { NoReasons(adds, id); }
  }

  lemma {:induction false} NoReasons(adds: seq<Addition>, id: string)
    requires !Mentions(adds, id)
    ensures Reasons(adds, id) == []
    decreases |adds|
  {
    if adds != [] {
      assert forall a | a in adds[..|adds| - 1] :: a in adds;
      assert adds[|adds| - 1] in adds;
      NoReasons(adds[..|adds| - 1], id);
    }
  }

  lemma RowsAfter(adds: seq<Addition>, rows: seq<Requirement>, a: Addition)
    requires Tallies(adds, rows) && WithAddition(rows, a).Ok?
    ensures Tallies(adds + [a], WithAddition(rows, a).value)
  {
    var after := WithAddition(rows, a).value;
    VolumesAfter(rows, a);
    forall i | 0 <= i < |after| ensures RowIs(adds + [a], after[i]) {
      RowAfter(adds, rows, a, i);
    }
    forall id ensures Mentions(adds + [a], id) <==> FindRow(after, id).Some? {
      OneMore(adds, a, id);
    }
  }

  lemma RowAfter(adds: seq<Addition>, rows: seq<Requirement>, a: Addition, i: nat)
    requires Tallies(adds, rows) && WithAddition(rows, a).Ok? && i < |WithAddition(rows, a).value|
    ensures RowIs(adds + [a], WithAddition(rows, a).value[i])
  {
    var row := WithAddition(rows, a).value[i];
    OneMore(adds, a, row.volume.identity);
    MountStays(adds, a, row.volume.identity, row.volume.path);
    if i == |rows| {
      NothingAsked(adds, a.volume.identity);
    } else {
      assert RowIs(adds, rows[i]);
    }
  }

  lemma VolumesAfter(rows: seq<Requirement>, a: Addition)
    requires OneRowEach(rows) && WithAddition(rows, a).Ok?
    ensures OneRowEach(WithAddition(rows, a).value)
    ensures forall id :: FindRow(WithAddition(rows, a).value, id).Some? <==>
        FindRow(rows, id).Some? || id == a.volume.identity
  {
    var after, at := WithAddition(rows, a).value, FindRow(rows, a.volume.identity);
    assert forall i | 0 <= i < |rows| :: after[i].volume.identity == rows[i].volume.identity;
    assert at.None? ==> after[|rows|].volume.identity == a.volume.identity;
    forall id ensures FindRow(after, id).Some? <==> FindRow(rows, id).Some? || id == a.volume.identity {
      var known := FindRow(rows, id);
      if known.Some? {
        assert after[known.value].volume.identity == id;
      }
    }
  }

  /** A finished plan tallies its additions; a plan is given up exactly if the bytes of a volume overflow. */
  lemma {:induction false} PlanTallies(adds: seq<Addition>)
    ensures Planned(adds).Err? <==> Overflows(adds)
    ensures Planned(adds).Ok? ==> Tallies(adds, Planned(adds).value)
    decreases |adds|
  {
    if adds != [] {
      var before, a := adds[..|adds| - 1], adds[|adds| - 1];
      PlanTallies(before);
      assert adds == before + [a];
      forall id ensures Asked(adds, id) == Asked(before, id) + BytesOf(a, id) {
        OneMore(before, a, id);
      }
      if Planned(before).Ok? {
        var rows := Planned(before).value;
        AddOverflows(before, rows, a);
        if WithAddition(rows, a).Ok? {
          RowsAfter(before, rows, a);
        }
      } else {
        var id :| Asked(before, id) > U64_MAX;
        assert Asked(adds, id) > U64_MAX;
      }
    }
  }

  /** The volumes in order of first mention. */
  function VolumesOf(adds: seq<Addition>): seq<string> {
    if adds == [] then []
    else
      var earlier, id := VolumesOf(adds[..|adds| - 1]), adds[|adds| - 1].volume.identity;
      if id in earlier then earlier else earlier + [id]
  }

  function Identities(rows: seq<Requirement>): seq<string> {
    seq(|rows|, i requires 0 <= i < |rows| => rows[i].volume.identity)
  }

  /** The rows come in order of first mention. */
  lemma {:induction false} PlanInOrder(adds: seq<Addition>)
    requires Planned(adds).Ok?
    ensures Identities(Planned(adds).value) == VolumesOf(adds)
    decreases |adds|
  {
    if adds != [] {
      var rows, a := Planned(adds[..|adds| - 1]).value, adds[|adds| - 1];
      PlanInOrder(adds[..|adds| - 1]);
      var at := FindRow(rows, a.volume.identity);
      assert at.Some? ==> Identities(rows)[at.value] == a.volume.identity;
    }
  }

  lemma AddOverflows(adds: seq<Addition>, rows: seq<Requirement>, a: Addition)
    requires Tallies(adds, rows) && !Overflows(adds)
    ensures WithAddition(rows, a).Err? <==> Overflows(adds + [a])
  {
    var mine := a.volume.identity;
    forall id ensures Asked(adds + [a], id) == Asked(adds, id) + BytesOf(a, id) && Asked(adds, id) <= U64_MAX {
      OneMore(adds, a, id);
    }
    var at := FindRow(rows, mine);
    if at.Some? {
      assert RowIs(adds, rows[at.value]);
    } else {
      NothingAsked(adds, mine);
    }
    assert WithAddition(rows, a).Err? <==> Asked(adds + [a], mine) > U64_MAX;
  }

  /** The rule a plan stands for: every volume, at its lowest reading, has room for all it is asked and the margin. */
  ghost predicate Enough(adds: seq<Addition>) {
    forall id, x: u64 :: Lowest(adds, id, x) ==> Asked(adds, id) + Max(Asked(adds, id) / 20, MINIMUM_HEADROOM) <= x
  }

  ghost predicate Passes(adds: seq<Addition>) {
    Planned(adds).Ok? && forall row | row in Planned(adds).value :: Fits(row, row.volume.available)
  }

  lemma {:induction false} LowestExists(adds: seq<Addition>, id: string) returns (x: u64)
    requires Mentions(adds, id)
    ensures Lowest(adds, id, x)
    decreases |adds|
  {
    var before, a := adds[..|adds| - 1], adds[|adds| - 1];
    assert adds == before + [a];
    OneMore(before, a, id);
    if Mentions(before, id) {
      x := LowestExists(before, id);
      if a.volume.identity == id { x := Min(x, a.volume.available); }
    } else {
      x := a.volume.available;
    }
  }

  /** A plan builds and passes exactly if every volume has enough. */
  lemma PlanIsExact(adds: seq<Addition>)
    ensures Passes(adds) <==> Enough(adds)
  {
    PlanTallies(adds);
    if Planned(adds).Ok? {
      var rows := Planned(adds).value;
      if Passes(adds) {
        forall id, x: u64 | Lowest(adds, id, x) ensures Asked(adds, id) + Headroom(Asked(adds, id)) <= x {
          assert Mentions(adds, id);
          var i := FindRow(rows, id).value;
          assert RowIs(adds, rows[i]) && rows[i] in rows;
        }
      }
      if Enough(adds) {
        forall row | row in rows ensures Fits(row, row.volume.available) {
          var i :| 0 <= i < |rows| && rows[i] == row;
          assert RowIs(adds, rows[i]);
        }
      }
    } else {
      var id :| Asked(adds, id) > U64_MAX;
      if !Mentions(adds, id) { NothingAsked(adds, id); }
      var x := LowestExists(adds, id);
    }
  }

  // ---- order and splitting

  lemma {:induction false} AskedConcat(a: seq<Addition>, b: seq<Addition>, id: string)
    ensures Asked(a + b, id) == Asked(a, id) + Asked(b, id)
    decreases |b|
  {
    if b == [] {
      assert a + b == a;
    } else {
      AskedConcat(a, b[..|b| - 1], id);
      assert (a + b)[..|a + b| - 1] == a + b[..|b| - 1];
    }
  }

  lemma AskedWithout(b: seq<Addition>, k: nat, id: string)
    requires k < |b|
    ensures Asked(b, id) == Asked(b[..k] + b[k + 1..], id) + BytesOf(b[k], id)
  {
    assert b == b[..k] + ([b[k]] + b[k + 1..]);
    AskedConcat(b[..k], [b[k]] + b[k + 1..], id);
    AskedConcat([b[k]], b[k + 1..], id);
    AskedConcat(b[..k], b[k + 1..], id);
    assert Asked([b[k]], id) == BytesOf(b[k], id);
  }

  lemma {:induction false} AskedPermutes(a: seq<Addition>, b: seq<Addition>, id: string)
    requires multiset(a) == multiset(b)
    ensures Asked(a, id) == Asked(b, id)
    decreases |a|
  {
    if a != [] {
      var n := |a| - 1;
      var last := a[n];
      assert a == a[..n] + [last];
      assert last in multiset(b);
      var k :| 0 <= k < |b| && b[k] == last;
      assert b == b[..k] + [last] + b[k + 1..];
      assert multiset(a[..n]) == multiset(a) - multiset{last};
      assert multiset(b[..k] + b[k + 1..]) == multiset(b) - multiset{last};
      AskedPermutes(a[..n], b[..k] + b[k + 1..], id);
      AskedWithout(b, k, id);
    } else {
      assert |multiset(b)| == 0;
    }
  }

  /** `pieces` asks of one volume, at the same reading, what `whole` asks in one go. */
  predicate Splits(whole: Addition, pieces: seq<Addition>) {
    && pieces != []
    && (forall p | p in pieces ::
          p.volume.identity == whole.volume.identity && p.volume.available == whole.volume.available)
    && Asked(pieces, whole.volume.identity) == whole.bytes
  }

  /** Splitting an addition and reordering the lot changes no volume's total and no lowest reading. */
  lemma SplitKeeps(
      before: seq<Addition>, whole: Addition, after: seq<Addition>, pieces: seq<Addition>,
      shuffled: seq<Addition>, id: string)
    requires Splits(whole, pieces) && multiset(shuffled) == multiset(before + pieces + after)
    ensures Asked(shuffled, id) == Asked(before + [whole] + after, id)
    ensures forall x: u64 :: Lowest(shuffled, id, x) <==> Lowest(before + [whole] + after, id, x)
  {
    SplitAsked(before, whole, after, pieces, id);
    AskedPermutes(shuffled, before + pieces + after, id);
    SplitMembers(before, whole, after, pieces, shuffled);
    forall x: u64 ensures Lowest(shuffled, id, x) <==> Lowest(before + [whole] + after, id, x) {
      SameLowest(before + after, whole, pieces, shuffled, before + [whole] + after, id, x);
    }
  }

  lemma SplitAsked(before: seq<Addition>, whole: Addition, after: seq<Addition>, pieces: seq<Addition>, id: string)
    requires Splits(whole, pieces)
    ensures Asked(before + pieces + after, id) == Asked(before + [whole] + after, id)
  {
    AskedConcat(before + pieces, after, id);
    AskedConcat(before, pieces, id);
    AskedConcat(before + [whole], after, id);
    AskedConcat(before, [whole], id);
    assert Asked([whole], id) == BytesOf(whole, id);
    if id != whole.volume.identity { NothingAsked(pieces, id); }
  }

  lemma SplitMembers(
      before: seq<Addition>, whole: Addition, after: seq<Addition>, pieces: seq<Addition>, shuffled: seq<Addition>)
    requires multiset(shuffled) == multiset(before + pieces + after)
    ensures forall a :: a in shuffled <==> a in before + after || a in pieces
    ensures forall a :: a in before + [whole] + after <==> a in before + after || a == whole
  {
    forall a ensures a in shuffled <==> a in before + pieces + after {
      assert a in shuffled <==> a in multiset(shuffled);
    }
  }

  lemma SameLowest(
      rest: seq<Addition>, whole: Addition, pieces: seq<Addition>, shuffled: seq<Addition>, one: seq<Addition>,
      id: string, x: u64)
    requires Splits(whole, pieces)
    requires forall a :: a in shuffled <==> a in rest || a in pieces
    requires forall a :: a in one <==> a in rest || a == whole
    ensures Lowest(shuffled, id, x) <==> Lowest(one, id, x)
  {
    assert pieces[0] in pieces;
    if Lowest(shuffled, id, x) {
      var a :| a in shuffled && a.volume.identity == id && a.volume.available == x;
      var b := if a in rest then a else whole;
      assert b in one && b.volume.identity == id && b.volume.available == x;
    }
    if Lowest(one, id, x) {
      var a :| a in one && a.volume.identity == id && a.volume.available == x;
      var b := if a in rest then a else pieces[0];
      assert b in shuffled && b.volume.identity == id && b.volume.available == x;
    }
  }

  /** The verdict is the same for every order of the additions, and for every way of splitting one. */
  lemma OrderAndSplittingDoNotMatter(
      before: seq<Addition>, whole: Addition, after: seq<Addition>, pieces: seq<Addition>, shuffled: seq<Addition>)
    requires Splits(whole, pieces) && multiset(shuffled) == multiset(before + pieces + after)
    ensures Passes(shuffled) <==> Passes(before + [whole] + after)
  {
    var one := before + [whole] + after;
    PlanIsExact(shuffled);
    PlanIsExact(one);
    forall id
      ensures Asked(shuffled, id) == Asked(one, id)
      ensures forall x: u64 :: Lowest(shuffled, id, x) <==> Lowest(one, id, x)
    {
      SplitKeeps(before, whole, after, pieces, shuffled, id);
    }
  }
}

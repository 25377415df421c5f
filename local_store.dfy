/**
 * The local submission store of app.js: the module-level `db` with its `submissions`
 * list and its single `currentDisplayId` pointer, the submit, approve, delete and
 * set-display handlers that change it, the admin view's order and the display lookup.
 * Times are integer minutes; browser persistence (`saveDB`) is a no-op here.
 */
module LocalStore {
  import opened Wrappers
  import opened Seqs
  import opened Sorting

  datatype Status = Pending | Approved

  /** The scheduled time window, in minutes. */
  datatype Window = Window(start: int, end: int)

  datatype Submission = Submission(
    id: int,
    submitter: string,
    description: string,
    window: Window,
    poles: int,
    status: Status,
    imageUrl: string)

  /** The form fields read by the submit handler; a missing time or image is `None`. */
  datatype SubmitInput = SubmitInput(
    description: string,
    timeStart: Option<int>,
    timeEnd: Option<int>,
    poleCount: int,
    imageUrl: Option<string>)

  /** The three alerts that stop a submission. */
  datatype SubmitError = MissingTime | EndNotAfterStart | MissingImage

  const MAX_DESCRIPTION := 50
  const ELLIPSIS := "..."
  const SIMULATED_SUBMITTER := "當前使用者 (模擬)"

  /** The store's built-in contents when nothing was loaded; windows are UTC midnights. */
  function Seed(): (subs: seq<Submission>)
    ensures UniqueIds(subs)
  {
    [ Submission(1, "使用者 A", "春季大促銷，服裝折扣高達50%！",
                 Window(28595520, 28605600), 10, Pending, "/mock_ad_1.png"),
      Submission(2, "使用者 B", "新鮮水果直送到家，品質保證。",
                 Window(28620000, 28661760), 5, Approved, "/mock_ad_2.png") ]
  }

  function IdOf(s: Submission): int { s.id }

  ghost predicate UniqueIds(subs: seq<Submission>) {
    KeysUnique(subs, IdOf)
  }

  // ---------------------------------------------------------------- ids

  /** The largest id of a non-empty list. */
  function MaxId(subs: seq<Submission>): (m: int)
    requires |subs| > 0
    ensures forall i :: 0 <= i < |subs| ==> subs[i].id <= m
    ensures exists i :: 0 <= i < |subs| && subs[i].id == m
  {
    if |subs| == 1 then subs[0].id
    else
      var rest := MaxId(subs[1..]);
      assert forall i :: 1 <= i < |subs| ==> subs[i] == subs[1..][i - 1];
      if subs[0].id >= rest then subs[0].id else rest
  }

  /** The id a new submission receives: one more than the largest, or 1 in an empty store. */
  function NextId(subs: seq<Submission>): (r: int)
    ensures |subs| == 0 ==> r == 1
    ensures |subs| > 0 ==> exists i :: 0 <= i < |subs| && subs[i].id == r - 1
    ensures forall i :: 0 <= i < |subs| ==> subs[i].id < r
  {
    if |subs| > 0 then MaxId(subs) + 1 else 1
  }

  /** Appending a record with the next id keeps ids unique. */
  lemma AppendNextKeepsUniqueIds(subs: seq<Submission>, s: Submission)
    requires UniqueIds(subs) && s.id == NextId(subs)
    ensures UniqueIds(subs + [s])
  {
    var t := subs + [s];
    forall i, j | 0 <= i < j < |t| ensures IdOf(t[i]) != IdOf(t[j]) {
      if j == |subs| {
        assert t[i] == subs[i];
      } else {
        assert t[i] == subs[i] && t[j] == subs[j];
      }
    }
  }

  // ---------------------------------------------------------------- submit

  /** The stored description: at most the first 50 characters, with an ellipsis appended when text was cut off. */
  function Truncate(d: string): (r: string)
    ensures |d| <= MAX_DESCRIPTION ==> r == d
    ensures |d| > MAX_DESCRIPTION ==> r == d[..MAX_DESCRIPTION] + ELLIPSIS
    ensures |r| <= MAX_DESCRIPTION + |ELLIPSIS|
  {
    var cut := if |d| < MAX_DESCRIPTION then |d| else MAX_DESCRIPTION;
    d[..cut] + (if |d| > MAX_DESCRIPTION then ELLIPSIS else "")
  }

  /** A stored description is a fixed point: truncating it again changes nothing. */
  lemma TruncateIdempotent(d: string)
    ensures Truncate(Truncate(d)) == Truncate(d)
  {
    if |d| > MAX_DESCRIPTION {
      assert Truncate(d)[..MAX_DESCRIPTION] == d[..MAX_DESCRIPTION];
    }
  }

  /** An image is present when the preview holds a non-empty source. */
  predicate HasImage(url: Option<string>) {
    url.Some? && url.value != ""
  }

  /** The record the submit handler appends, or the alert that stops it. */
  function Admit(subs: seq<Submission>, input: SubmitInput): (r: Result<Submission, SubmitError>)
    ensures r.Failure? <==>
      input.timeStart.None? || input.timeEnd.None? ||
      input.timeStart.value >= input.timeEnd.value || !HasImage(input.imageUrl)
    ensures (input.timeStart.None? || input.timeEnd.None?) ==> r == Failure(MissingTime)
    ensures input.timeStart.Some? && input.timeEnd.Some? && input.timeStart.value >= input.timeEnd.value
      ==> r == Failure(EndNotAfterStart)
    ensures (input.timeStart.Some? && input.timeEnd.Some? && input.timeStart.value < input.timeEnd.value &&
             !HasImage(input.imageUrl)) ==> r == Failure(MissingImage)
    ensures r.Success? ==>
      && r.value.id == NextId(subs)
      && (forall i :: 0 <= i < |subs| ==> subs[i].id < r.value.id)
      && r.value.status == Pending
      && r.value.window == Window(input.timeStart.value, input.timeEnd.value)
      && r.value.window.start < r.value.window.end
      && r.value.description == Truncate(input.description)
      && r.value.poles == input.poleCount
      && r.value.imageUrl == input.imageUrl.value
      && r.value.submitter == SIMULATED_SUBMITTER
  {
    if input.timeStart.None? || input.timeEnd.None? then Failure(MissingTime)
    else if input.timeStart.value >= input.timeEnd.value then Failure(EndNotAfterStart)
    else if !HasImage(input.imageUrl) then Failure(MissingImage)
    else Success(Submission(NextId(subs), SIMULATED_SUBMITTER, Truncate(input.description),
                            Window(input.timeStart.value, input.timeEnd.value),
                            input.poleCount, Pending, input.imageUrl.value))
  }

  // ---------------------------------------------------------------- lookup and approve

  /** The position of the first submission carrying `id`, if any. */
  function IndexOf(subs: seq<Submission>, id: int): (r: Option<nat>)
    ensures r.Some? ==> r.value < |subs| && subs[r.value].id == id
    ensures r.Some? ==> forall j :: 0 <= j < r.value ==> subs[j].id != id
    ensures r.None? <==> forall j :: 0 <= j < |subs| ==> subs[j].id != id
  {
    FirstIndex(subs, (s: Submission) => s.id == id)
  }

  /** The approve handler's effect: the first record with `id` becomes approved. */
  function ApproveFirst(subs: seq<Submission>, id: int): (r: seq<Submission>)
    ensures |r| == |subs|
    ensures forall j :: 0 <= j < |subs| ==> r[j] == subs[j].(status := r[j].status)
    ensures forall j | 0 <= j < |subs| && subs[j].id == id && (forall k :: 0 <= k < j ==> subs[k].id != id) ::
              r[j].status == Approved
    ensures forall j | 0 <= j < |subs| && (subs[j].id != id || exists k :: 0 <= k < j && subs[k].id == id) ::
              r[j] == subs[j]
  {
    match IndexOf(subs, id)
    case None => subs
    case Some(i) =>
      if subs[i].status != Approved then subs[i := subs[i].(status := Approved)] else subs
  }

  /** Approving twice is approving once. */
  lemma ApproveIdempotent(subs: seq<Submission>, id: int)
    ensures ApproveFirst(ApproveFirst(subs, id), id) == ApproveFirst(subs, id)
  {
    var once := ApproveFirst(subs, id);
    assert forall j :: 0 <= j < |subs| ==> once[j].id == subs[j].id;
    assert IndexOf(once, id) == IndexOf(subs, id);
  }

  /** Approval never sends a record back to pending, and changes nothing for an unknown id. */
  lemma ApproveMonotone(subs: seq<Submission>, id: int)
    ensures forall j :: 0 <= j < |subs| && subs[j].status == Approved ==> ApproveFirst(subs, id)[j] == subs[j]
    ensures IndexOf(subs, id).None? ==> ApproveFirst(subs, id) == subs
  {
  }

  // ---------------------------------------------------------------- display pointer

  /** The set-display handler: the held id is released, any other id is taken. */
  function Toggle(p: Option<int>, id: int): (r: Option<int>)
    ensures r.None? <==> p == Some(id)
    ensures r.Some? ==> r == Some(id)
  {
    if p == Some(id) then None else Some(id)
  }

  /** Clicking the same button twice restores an empty pointer, or keeps the one it held. */
  lemma ToggleTwice(p: Option<int>, id: int)
    ensures Toggle(Toggle(p, id), id) == (if p == Some(id) then p else None)
    ensures Toggle(Toggle(None, id), id) == None
  {
  }

  /** The pointer after deleting a record with `id`. */
  function ClearPointer(p: Option<int>, id: int): (r: Option<int>)
    ensures r == None || (r == p && p != Some(id))
    ensures p != Some(id) ==> r == p
  {
    if p == Some(id) then None else p
  }

  /** The display page's record: the first one whose id equals the pointer. */
  function Resolve(subs: seq<Submission>, p: Option<int>): (r: Option<Submission>)
    ensures r.Some? <==> p.Some? && exists j :: 0 <= j < |subs| && subs[j].id == p.value
    ensures r.Some? ==> r.value in subs && r.value.id == p.value
    ensures r.Some? ==> r.value == subs[IndexOf(subs, p.value).value]
  {
    match p
    case None => None
    case Some(id) =>
      match IndexOf(subs, id)
      case None => None
      case Some(i) => Some(subs[i])
  }

  /** After removing position `i`, the first record with another id moves down by at most one. */
  lemma IndexOfAfterRemove(subs: seq<Submission>, i: nat, k: int)
    requires i < |subs| && subs[i].id != k
    ensures IndexOf(RemoveAt(subs, i), k) ==
      match IndexOf(subs, k)
      case None => None
      case Some(f) => Some(if f < i then f else f - 1)
  {
    var r := RemoveAt(subs, i);
    match IndexOf(subs, k)
    case None =>
      forall j | 0 <= j < |r| ensures r[j].id != k {
        if j < i { assert r[j] == subs[j]; } else { assert r[j] == subs[j + 1]; }
      }
    case Some(f) =>
      var g := if f < i then f else f - 1;
      assert r[g] == subs[f];
      forall j | 0 <= j < g ensures r[j].id != k {
        if j < i { assert r[j] == subs[j]; } else { assert r[j] == subs[j + 1]; }
      }
  }

  /**
   * Deleting a record and clearing the pointer in the same step leaves the display
   * unchanged unless it showed that record's id, in which case it shows nothing.
   */
  lemma DeleteKeepsOtherDisplay(subs: seq<Submission>, i: nat, p: Option<int>)
    requires i < |subs|
    ensures Resolve(RemoveAt(subs, i), ClearPointer(p, subs[i].id)) ==
      (if p == Some(subs[i].id) then None else Resolve(subs, p))
  {
    if p.Some? && p.value != subs[i].id {
      IndexOfAfterRemove(subs, i, p.value);
      var f := IndexOf(subs, p.value);
      if f.Some? {
        var g := if f.value < i then f.value else f.value - 1;
        assert RemoveAt(subs, i)[g] == subs[f.value];
      }
    }
  }

  // ---------------------------------------------------------------- admin view

  function AdminKey(s: Submission): SortKey {
    SortKey(if s.status == Pending then 0 else 1, s.id)
  }

  /** The admin table's order: pending records first, then ascending id. */
  function AdminOrder(subs: seq<Submission>): (r: seq<Submission>)
    ensures multiset(r) == multiset(subs)
    ensures forall i, j :: 0 <= i < j < |r| && r[j].status == Pending ==> r[i].status == Pending
    ensures forall i, j :: 0 <= i < j < |r| && r[i].status == r[j].status ==> r[i].id <= r[j].id
  {
    var r := SortByKey(subs, AdminKey);
    assert forall i, j :: 0 <= i < j < |r| ==> KeyLe(AdminKey(r[i]), AdminKey(r[j]));
    r
  }

  /** With unique ids the admin order is strict within each status group. */
  lemma AdminOrderStrict(subs: seq<Submission>)
    requires UniqueIds(subs)
    ensures UniqueIds(AdminOrder(subs))
    ensures var r := AdminOrder(subs);
            forall i, j :: 0 <= i < j < |r| && r[i].status == r[j].status ==> r[i].id < r[j].id
  {
    var r := AdminOrder(subs);
    PermutationKeepsKeysUnique(subs, r, IdOf);
    assert forall i, j :: 0 <= i < j < |r| ==> IdOf(r[i]) != IdOf(r[j]);
  }

  /** The seeded store lists pending 1 before approved 2, and still 1, 2 once both are approved. */
  lemma SeedAdminOrder()
    ensures AdminOrder(Seed()) == Seed()
    ensures var approved := ApproveFirst(Seed(), 1);
            approved[0].status == Approved && AdminOrder(approved) == approved
  {
    var seed := Seed();
    assert Insert(seed[1], [], AdminKey) == [seed[1]];
    assert seed[1..][1..] == [];
    assert SortByKey(seed, AdminKey) == Insert(seed[0], [seed[1]], AdminKey);
    var approved := ApproveFirst(seed, 1);
    assert approved[1] == seed[1];
    assert approved[1..][1..] == [];
    assert SortByKey(approved, AdminKey) == Insert(approved[0], [approved[1]], AdminKey);
  }

  // ---------------------------------------------------------------- the store

  /** The module-level `db` object. */
  class Db {
    var submissions: seq<Submission>
    var currentDisplayId: Option<int>

    /** The store as `loadDB` leaves it: the loaded contents, by default `Seed()` and no pointer. */
    constructor (initial: seq<Submission> := Seed(), pointer: Option<int> := None)
      ensures submissions == initial && currentDisplayId == pointer
    {
      submissions := initial;
      currentDisplayId := pointer;
    }

    /** The submit handler: validate, then append one pending record with the next id. */
    method Submit(input: SubmitInput) returns (r: Result<Submission, SubmitError>)
      modifies this
      ensures r == Admit(old(submissions), input)
      ensures r.Success? ==> submissions == old(submissions) + [r.value]
      ensures r.Failure? ==> submissions == old(submissions)
      ensures currentDisplayId == old(currentDisplayId)
      ensures UniqueIds(old(submissions)) ==> UniqueIds(submissions)
    {
      if input.timeStart.None? || input.timeEnd.None? {
        return Failure(MissingTime);
      }
      if input.timeStart.value >= input.timeEnd.value {
        return Failure(EndNotAfterStart);
      }
      var imageUrl := input.imageUrl;
      if !HasImage(imageUrl) {
        return Failure(MissingImage);
      }
      var record := Submission(
        NextId(submissions), SIMULATED_SUBMITTER, Truncate(input.description),
        Window(input.timeStart.value, input.timeEnd.value),
        input.poleCount, Pending, imageUrl.value);
      if UniqueIds(submissions) {
        AppendNextKeepsUniqueIds(submissions, record);
      }
      submissions := submissions + [record];
      r := Success(record);
    }

    /** The approve handler: the first record with `id` is set to approved if it was pending. */
    method Approve(id: int)
      modifies this
      ensures submissions == ApproveFirst(old(submissions), id)
      ensures currentDisplayId == old(currentDisplayId)
      ensures UniqueIds(old(submissions)) ==> UniqueIds(submissions)
    {
      var idx := IndexOf(submissions, id);
      if idx.Some? && submissions[idx.value].status != Approved {
        var i := idx.value;
        submissions := submissions[i := submissions[i].(status := Approved)];
      }
      assert forall j :: 0 <= j < |submissions| ==> submissions[j].id == old(submissions)[j].id;
    }

    /**
     * The delete handler: when a record with `id` exists and the admin confirms, the first
     * such record is spliced out and a pointer at `id` is cleared in the same step.
     */
    method Delete(id: int, confirmed: bool) returns (removed: bool)
      modifies this
      ensures removed <==> confirmed && IndexOf(old(submissions), id).Some?
      ensures removed ==> submissions == RemoveAt(old(submissions), IndexOf(old(submissions), id).value)
      ensures removed ==> currentDisplayId == ClearPointer(old(currentDisplayId), id)
      ensures !removed ==> submissions == old(submissions) && currentDisplayId == old(currentDisplayId)
      ensures UniqueIds(old(submissions)) ==> UniqueIds(submissions)
      ensures removed && UniqueIds(old(submissions)) ==>
        forall j :: 0 <= j < |submissions| ==> submissions[j].id != id
    {
      var idx := IndexOf(submissions, id);
      removed := false;
      if idx.Some? {
        if !confirmed {
          return;
        }
        var i := idx.value;
        ghost var before := submissions;
        submissions := RemoveAt(submissions, i);
        if currentDisplayId == Some(id) {
          currentDisplayId := None;
        }
        removed := true;
        if UniqueIds(before) {
          forall a, b | 0 <= a < b < |submissions| ensures IdOf(submissions[a]) != IdOf(submissions[b]) {
            var a' := if a < i then a else a + 1;
            var b' := if b < i then b else b + 1;
            assert submissions[a] == before[a'] && submissions[b] == before[b'];
          }
          forall j | 0 <= j < |submissions| ensures submissions[j].id != id {
            var j' := if j < i then j else j + 1;
            assert submissions[j] == before[j'] && IdOf(before[j']) != IdOf(before[i]);
          }
        }
      }
    }

    /** The set-display handler: a toggle, with no existence or approval check. */
    method SetDisplay(id: int)
      modifies this
      ensures currentDisplayId == Toggle(old(currentDisplayId), id)
      ensures submissions == old(submissions)
    {
      if currentDisplayId == Some(id) {
        currentDisplayId := None;
      } else {
        currentDisplayId := Some(id);
      }
    }
  }
}

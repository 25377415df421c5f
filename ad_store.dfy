/**
 * The advertisement store of src/composables/useAdStore.js: the shared `advertisements`,
 * `loading` and `error` state, the `activeAdvertisements` and `sortedAdvertisements`
 * projections, and the local effects of each action once its backend call has answered.
 * The answer is a parameter; times are integer minutes.
 */
module AdStore {
  import opened Wrappers
  import opened Seqs
  import opened Sorting

  datatype AdStatus = Active | Paused | Completed

  datatype Ad = Ad(
    id: int,
    description: string,
    imageUrl: string,
    status: AdStatus,
    startTime: int,
    endTime: int,
    impressionCount: int,
    currentImpressions: int)

  /**
   * What an API call gave the action: a successful response with its data, a response
   * with `success` false and its message (empty when it has none), or a thrown error.
   */
  datatype ApiResponse<T> = Ok(data: T) | Declined(message: string) | Threw(message: string)

  /** What an action returns to its caller: `{ success: true, data }` or `{ success: false, error }`. */
  datatype ActionResult<T> = Done(data: T) | Failed(error: string)

  const FETCH_FAILED := "獲取廣告列表失敗"
  const FETCH_ACTIVE_FAILED := "獲取有效廣告失敗"
  const CREATE_FAILED := "建立廣告失敗"
  const UPDATE_FAILED := "更新廣告失敗"
  const DELETE_FAILED := "刪除廣告失敗"
  const IMPRESSION_FAILED := "更新曝光次數失敗"

  /** The recorded error text: a declined response's message, or the action's fallback text when that message is empty; a thrown error's own message. */
  function ErrorText<T>(response: ApiResponse<T>, fallback: string): (m: string)
    requires !response.Ok?
    ensures m == response.message || m == fallback
    ensures response.Declined? && response.message != "" ==> m == response.message
    ensures response.Declined? && fallback != "" ==> m != ""
    ensures response.Threw? ==> m == response.message
  {
    if response.Declined? && response.message == "" then fallback else response.message
  }

  // ---------------------------------------------------------------- projections

  /** The filter of `activeAdvertisements`: active status, inside the window, cap not reached. */
  predicate IsActive(ad: Ad, now: int) {
    ad.status == Active && ad.startTime <= now <= ad.endTime &&
    ad.currentImpressions < ad.impressionCount
  }

  /** `activeAdvertisements`: the ads that are live at `now`, in list order. */
  function ActiveAdvertisements(ads: seq<Ad>, now: int): (r: seq<Ad>)
    ensures forall i :: 0 <= i < |r| ==> r[i] in ads && IsActive(r[i], now)
    ensures forall i :: 0 <= i < |ads| && IsActive(ads[i], now) ==> ads[i] in r
    ensures forall i :: 0 <= i < |ads| && IsActive(ads[i], now) ==> multiset(r)[ads[i]] == multiset(ads)[ads[i]]
    ensures IsSubsequence(r, ads)
  {
    Filter(ads, (a: Ad) => IsActive(a, now))
  }

  /** An ad outside its window, paused, completed or at its cap is never shown as active. */
  lemma InactiveNotListed(ads: seq<Ad>, ad: Ad, now: int)
    requires ad.status != Active || now < ad.startTime || now > ad.endTime ||
             ad.currentImpressions >= ad.impressionCount
    ensures ad !in ActiveAdvertisements(ads, now)
  {
  }

  /** When every ad is live the projection is the whole list. */
  lemma AllActiveListed(ads: seq<Ad>, now: int)
    requires forall i :: 0 <= i < |ads| ==> IsActive(ads[i], now)
    ensures ActiveAdvertisements(ads, now) == ads
  {
    FilterKeepsAll(ads, (a: Ad) => IsActive(a, now));
  }

  function IdOf(ad: Ad): int { ad.id }

  function AdKey(ad: Ad): SortKey {
    SortKey(if ad.status == Active then 0 else 1, -ad.id)
  }

  /** `sortedAdvertisements`: a reordered copy, active ads first, then descending id. */
  function SortedAdvertisements(ads: seq<Ad>): (r: seq<Ad>)
    ensures multiset(r) == multiset(ads)
    ensures forall i, j :: 0 <= i < j < |r| && r[j].status == Active ==> r[i].status == Active
    ensures forall i, j | 0 <= i < j < |r| && (r[i].status == Active <==> r[j].status == Active) ::
              r[i].id >= r[j].id
  {
    var r := SortByKey(ads, AdKey);
    assert forall i, j :: 0 <= i < j < |r| ==> KeyLe(AdKey(r[i]), AdKey(r[j]));
    r
  }

  /** With unique ids the descent within each group is strict. */
  lemma SortedAdvertisementsStrict(ads: seq<Ad>)
    requires KeysUnique(ads, IdOf)
    ensures var r := SortedAdvertisements(ads);
            forall i, j | 0 <= i < j < |r| && (r[i].status == Active <==> r[j].status == Active) ::
              r[i].id > r[j].id
  {
    var r := SortedAdvertisements(ads);
    PermutationKeepsKeysUnique(ads, r, IdOf);
    assert forall i, j :: 0 <= i < j < |r| ==> IdOf(r[i]) != IdOf(r[j]);
  }

  // ---------------------------------------------------------------- local updates

  /** The position of the first ad carrying `id`, if any. */
  function IndexOf(ads: seq<Ad>, id: int): (r: Option<nat>)
    ensures r.Some? ==> r.value < |ads| && ads[r.value].id == id
    ensures r.Some? ==> forall j :: 0 <= j < r.value ==> ads[j].id != id
    ensures r.None? <==> forall j :: 0 <= j < |ads| ==> ads[j].id != id
  {
    FirstIndex(ads, (a: Ad) => a.id == id)
  }

  /** The first ad with `id` is replaced by `data`; every other entry stays where it was. */
  function ReplaceFirst(ads: seq<Ad>, id: int, data: Ad): (r: seq<Ad>)
    ensures |r| == |ads|
    ensures forall j | 0 <= j < |ads| && ads[j].id == id && (forall k :: 0 <= k < j ==> ads[k].id != id) ::
              r[j] == data
    ensures forall j | 0 <= j < |ads| && (ads[j].id != id || exists k :: 0 <= k < j && ads[k].id == id) ::
              r[j] == ads[j]
  {
    match IndexOf(ads, id)
    case None => ads
    case Some(i) => ads[i := data]
  }

  /** Every ad with `id` is dropped; the others keep their order. */
  function RemoveById(ads: seq<Ad>, id: int): (r: seq<Ad>)
    ensures forall i :: 0 <= i < |r| ==> r[i].id != id && r[i] in ads
    ensures forall i :: 0 <= i < |ads| && ads[i].id != id ==> ads[i] in r
    ensures forall i :: 0 <= i < |ads| && ads[i].id != id ==> multiset(r)[ads[i]] == multiset(ads)[ads[i]]
    ensures IsSubsequence(r, ads)
  {
    Filter(ads, (a: Ad) => a.id != id)
  }

  /** Removing an id that no ad carries leaves the list as it was. */
  lemma RemoveAbsentId(ads: seq<Ad>, id: int)
    requires forall i :: 0 <= i < |ads| ==> ads[i].id != id
    ensures RemoveById(ads, id) == ads
  {
    FilterKeepsAll(ads, (a: Ad) => a.id != id);
  }

  // ---------------------------------------------------------------- the store

  /** The composable's shared reactive state. */
  class Store {
    var advertisements: seq<Ad>
    var loading: bool
    var error: Option<string>

    constructor ()
      ensures advertisements == [] && !loading && error == None
    {
      advertisements := [];
      loading := false;
      error := None;
    }

    /** `fetchAdvertisements`: the list becomes the returned data, or the error is recorded. */
    method FetchAdvertisements(response: ApiResponse<seq<Ad>>) returns (r: ActionResult<seq<Ad>>)
      modifies this
      ensures !loading
      ensures response.Ok? ==>
        advertisements == response.data && error == None && r == Done(response.data)
      ensures !response.Ok? ==>
        && advertisements == old(advertisements)
        && error == Some(ErrorText(response, FETCH_FAILED))
        && r == Failed(ErrorText(response, FETCH_FAILED))
    {
      loading := true;
      error := None;
      if response.Ok? {
        advertisements := response.data;
        r := Done(response.data);
      } else {
        var message := ErrorText(response, FETCH_FAILED);
        error := Some(message);
        r := Failed(message);
      }
      loading := false;
    }

    /** `fetchActiveAdvertisements`: returns the server's active set; the list is not touched. */
    method FetchActiveAdvertisements(response: ApiResponse<seq<Ad>>) returns (r: ActionResult<seq<Ad>>)
      modifies this
      ensures !loading && advertisements == old(advertisements)
      ensures response.Ok? ==> error == None && r == Done(response.data)
      ensures !response.Ok? ==>
        error == Some(ErrorText(response, FETCH_ACTIVE_FAILED)) &&
        r == Failed(ErrorText(response, FETCH_ACTIVE_FAILED))
    {
      loading := true;
      error := None;
      if response.Ok? {
        r := Done(response.data);
      } else {
        var message := ErrorText(response, FETCH_ACTIVE_FAILED);
        error := Some(message);
        r := Failed(message);
      }
      loading := false;
    }

    /**
     * `createAdvertisement`: after a successful create the list is fetched again with
     * `refetch` as that call's answer; the create reports success whatever the refetch did.
     */
    method CreateAdvertisement(response: ApiResponse<Ad>, refetch: ApiResponse<seq<Ad>>)
      returns (r: ActionResult<Ad>)
      modifies this
      ensures !loading
      ensures response.Ok? ==>
        && r == Done(response.data)
        && advertisements == (if refetch.Ok? then refetch.data else old(advertisements))
        && error == (if refetch.Ok? then None else Some(ErrorText(refetch, FETCH_FAILED)))
      ensures !response.Ok? ==>
        && advertisements == old(advertisements)
        && error == Some(ErrorText(response, CREATE_FAILED))
        && r == Failed(ErrorText(response, CREATE_FAILED))
    {
      loading := true;
      error := None;
      if response.Ok? {
        var refetched := FetchAdvertisements(refetch);
        r := Done(response.data);
      } else {
        var message := ErrorText(response, CREATE_FAILED);
        error := Some(message);
        r := Failed(message);
      }
      loading := false;
    }

    /** `updateAdvertisement`: the returned record replaces the first ad with `adId`. */
    method UpdateAdvertisement(adId: int, response: ApiResponse<Ad>) returns (r: ActionResult<Ad>)
      modifies this
      ensures !loading
      ensures response.Ok? ==>
        && advertisements == ReplaceFirst(old(advertisements), adId, response.data)
        && error == None && r == Done(response.data)
      ensures !response.Ok? ==>
        && advertisements == old(advertisements)
        && error == Some(ErrorText(response, UPDATE_FAILED))
        && r == Failed(ErrorText(response, UPDATE_FAILED))
    {
      loading := true;
      error := None;
      if response.Ok? {
        var index := IndexOf(advertisements, adId);
        if index.Some? {
          advertisements := advertisements[index.value := response.data];
        }
        r := Done(response.data);
      } else {
        var message := ErrorText(response, UPDATE_FAILED);
        error := Some(message);
        r := Failed(message);
      }
      loading := false;
    }

    /** `deleteAdvertisement`: every ad with `adId` leaves the list. */
    method DeleteAdvertisement(adId: int, response: ApiResponse<()>) returns (r: ActionResult<()>)
      modifies this
      ensures !loading
      ensures response.Ok? ==>
        advertisements == RemoveById(old(advertisements), adId) && error == None && r == Done(())
      ensures !response.Ok? ==>
        && advertisements == old(advertisements)
        && error == Some(ErrorText(response, DELETE_FAILED))
        && r == Failed(ErrorText(response, DELETE_FAILED))
    {
      loading := true;
      error := None;
      if response.Ok? {
        advertisements := RemoveById(advertisements, adId);
        r := Done(());
      } else {
        var message := ErrorText(response, DELETE_FAILED);
        error := Some(message);
        r := Failed(message);
      }
      loading := false;
    }

    /** `incrementImpression`: like an update, but `loading` and `error` are left alone. */
    method IncrementImpression(adId: int, response: ApiResponse<Ad>) returns (r: ActionResult<Ad>)
      modifies this
      ensures loading == old(loading) && error == old(error)
      ensures response.Ok? ==>
        advertisements == ReplaceFirst(old(advertisements), adId, response.data) && r == Done(response.data)
      ensures !response.Ok? ==>
        advertisements == old(advertisements) && r == Failed(ErrorText(response, IMPRESSION_FAILED))
    {
      if response.Ok? {
        var index := IndexOf(advertisements, adId);
        if index.Some? {
          advertisements := advertisements[index.value := response.data];
        }
        r := Done(response.data);
      } else {
        r := Failed(ErrorText(response, IMPRESSION_FAILED));
      }
    }
  }
}

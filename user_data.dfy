/** The user's list bookkeeping of `user_data.rs`: the per-media entries,
    the per-status lists of media ids, and the operations that keep the two
    in step. The valid statuses and list names (`USER_STATUSES`,
    `USER_LISTS`) and today's date are parameters. */
module UserLists {
  import opened Wrappers
  import opened Dates

  /** `UserInfo`: one entry of the user's list. */
  datatype UserInfo = UserInfo(id: int, mediaId: int, status: string, score: real, progress: int,
                               startedAt: Option<Date>, completedAt: Option<Date>, notes: string)

  /** `s.retain(|id| *id != x)`. */
  function Without(s: seq<int>, x: int): (r: seq<int>)
    ensures multiset(r) == multiset(s)[x := 0]
    ensures forall y :: y in r <==> y in s && y != x
    decreases |s|
  {
    if s == [] then []
    else
      assert s == [s[0]] + s[1..];
      (if s[0] == x then [] else [s[0]]) + Without(s[1..], x)
  }

  /** A status change that moves the media to another list: CURRENT and
      REPEATING share one list. */
  predicate ChangesList(oldStatus: string, status: string)
  {
    oldStatus != status
    && !(oldStatus == "CURRENT" && status == "REPEATING")
    && !(oldStatus == "REPEATING" && status == "CURRENT")
  }

  /** The list a status belongs to. */
  function TargetList(status: string): (name: string)
    ensures name == "CURRENT" <==> status == "CURRENT" || status == "REPEATING"
  {
    if status == "REPEATING" then "CURRENT" else status
  }

  /** The `retain` over every list. */
  function RemovedEverywhere(lists: map<string, seq<int>>, x: int): (r: map<string, seq<int>>)
    ensures r.Keys == lists.Keys
    ensures forall k :: k in r ==> r[k] == Without(lists[k], x)
  {
    map k | k in lists :: Without(lists[k], x)
  }

  /** The lists after `check_correct_list` for media `x` going from
      `oldStatus` to `status`: the id is taken out of every list and pushed
      onto its new list, if that list exists. */
  function MovedLists(lists: map<string, seq<int>>, oldStatus: string, status: string, x: int)
    : map<string, seq<int>>
  {
    if !ChangesList(oldStatus, status) then lists
    else
      var removed := RemovedEverywhere(lists, x);
      var target := TargetList(status);
      if target in removed then removed[target := removed[target] + [x]] else removed
  }

  /** A status that keeps the list leaves every list as it was; any other
      change keeps the list names, keeps every other id of every list in
      order, and leaves `x` exactly once on its new list and on no other
      (on none at all when the new list does not exist). */
  lemma MovedListsSpec(lists: map<string, seq<int>>, oldStatus: string, status: string, x: int)
    ensures !ChangesList(oldStatus, status) ==> MovedLists(lists, oldStatus, status, x) == lists
    ensures ChangesList(oldStatus, status) ==>
      var r := MovedLists(lists, oldStatus, status, x);
      r.Keys == lists.Keys
      && (forall k :: k in r ==> Without(r[k], x) == Without(lists[k], x))
      && (forall k :: k in r ==> multiset(r[k])[x] == if k == TargetList(status) then 1 else 0)
  {
    if ChangesList(oldStatus, status) {
      var r := MovedLists(lists, oldStatus, status, x);
      var target := TargetList(status);
      forall k | k in r
        ensures Without(r[k], x) == Without(lists[k], x)
        ensures multiset(r[k])[x] == if k == target then 1 else 0
      {
        var w := Without(lists[k], x);
        if k == target {
          assert r[k] == w + [x];
          WithoutAppend(w, x);
          WithoutAbsent(w, x);
        } else {
          assert r[k] == w;
          WithoutAbsent(w, x);
        }
      }
    }
  }

  lemma {:induction false} WithoutAbsent(s: seq<int>, x: int)
    requires x !in s
    ensures Without(s, x) == s
    decreases |s|
  {
    if s != [] {
      WithoutAbsent(s[1..], x);
      assert s == [s[0]] + s[1..];
    }
  }

  lemma {:induction false} WithoutAppend(s: seq<int>, x: int)
    ensures Without(s + [x], x) == Without(s, x)
    decreases |s|
  {
    if s == [] {
      assert Without([x], x) == [] + Without([], x);
    } else {
      WithoutAppend(s[1..], x);
      assert (s + [x])[1..] == s[1..] + [x];
    }
  }

  /** Every id is on at most one list, and at most once on it. */
  ghost predicate OnOneList(lists: map<string, seq<int>>)
  {
    (forall k, y :: k in lists ==> multiset(lists[k])[y] <= 1)
    && (forall k1, k2, y :: k1 in lists && k2 in lists && k1 != k2 && y in lists[k1] ==> y !in lists[k2])
  }

  /** Moving a media between lists keeps every id on at most one list. */
  lemma MovedListsOnOneList(lists: map<string, seq<int>>, oldStatus: string, status: string, x: int)
    requires OnOneList(lists)
    ensures OnOneList(MovedLists(lists, oldStatus, status, x))
  {
    MovedListsSpec(lists, oldStatus, status, x);
    if ChangesList(oldStatus, status) {
      var r := MovedLists(lists, oldStatus, status, x);
      forall k, y | k in r && y != x
        ensures multiset(r[k])[y] == multiset(lists[k])[y]
      {
        assert multiset(Without(r[k], x))[y] == multiset(Without(lists[k], x))[y];
      }
      forall k1, k2, y | k1 in r && k2 in r && k1 != k2 && y in r[k1]
        ensures y !in r[k2]
      {
        assert multiset(r[k1])[y] > 0;
        if y != x {
          assert multiset(lists[k1])[y] > 0;
          assert y !in lists[k2];
          assert multiset(r[k2])[y] == 0;
        } else {
          assert multiset(r[k2])[y] == 0;
        }
      }
    }
  }

  /** A date the user left empty. */
  predicate Unset(d: Option<Date>)
  {
    d == Some(Empty)
  }

  /** The dates `set_user_data` fills in before it stores `data`, given the
      status and progress of the entry it replaces and the episode count. On
      completion (not from REPEATING) an empty or missing completion date
      becomes today, and an empty start date takes the completion date when
      the entry has at most one episode or was watched from progress 0;
      starting a series from progress 0 sets an empty start date to today. */
  function AdjustDates(data: UserInfo, oldStatus: string, oldProgress: int, maxEps: Option<int>, today: Date)
    : (stored: UserInfo)
    ensures stored == data.(startedAt := stored.startedAt, completedAt := stored.completedAt)
    ensures !Unset(data.startedAt) ==> stored.startedAt == data.startedAt
    ensures data.completedAt.Some? && !Unset(data.completedAt) ==> stored.completedAt == data.completedAt
    ensures stored.completedAt != data.completedAt ==> stored.completedAt == Some(today)
    ensures stored.startedAt != data.startedAt ==> stored.startedAt in {Some(today), stored.completedAt}
    // completion: an empty or missing completion date becomes today
    ensures data.status == "COMPLETED" && oldStatus != "REPEATING" && (data.completedAt.None? || Unset(data.completedAt))
      ==> stored.completedAt == Some(today)
    // completion in one sitting: an empty start date takes the completion date
    ensures data.status == "COMPLETED" && oldStatus != "REPEATING" && Unset(data.startedAt)
      && ((maxEps.Some? && maxEps.value <= 1) || oldProgress == 0)
      ==> stored.startedAt == stored.completedAt
    // starting from progress 0: an empty start date becomes today
    ensures data.status == "CURRENT" && data.progress > 0 && oldProgress == 0 && Unset(data.startedAt)
      ==> stored.startedAt == Some(today)
    // when no rule fires the entry is stored as given
    ensures !(data.status == "COMPLETED" && oldStatus != "REPEATING"
              && (data.completedAt.None? || Unset(data.completedAt)
                  || (Unset(data.startedAt) && ((maxEps.Some? && maxEps.value <= 1) || oldProgress == 0))))
      && !(data.status == "CURRENT" && data.progress > 0 && oldProgress == 0 && Unset(data.startedAt))
      ==> stored == data
  {
    var completing := data.status == "COMPLETED" && oldStatus != "REPEATING";
    var completedAt :=
      if completing && (data.completedAt.None? || Unset(data.completedAt)) then Some(today)
      else data.completedAt;
    var startedAt :=
      if completing && Unset(data.startedAt) && ((maxEps.Some? && maxEps.value <= 1) || oldProgress == 0)
      then completedAt
      else if data.status == "CURRENT" && data.progress > 0 && oldProgress == 0 && Unset(data.startedAt)
      then Some(today)
      else data.startedAt;
    data.(startedAt := startedAt, completedAt := completedAt)
  }

  /** Storing the same entry again, against the same previous status and
      progress, fills in nothing more. */
  lemma AdjustDatesIdempotent(data: UserInfo, oldStatus: string, oldProgress: int, maxEps: Option<int>, today: Date)
    ensures var once := AdjustDates(data, oldStatus, oldProgress, maxEps, today);
      AdjustDates(once, oldStatus, oldProgress, maxEps, today) == once
  {
  }

  class UserData {
    /** `USER_STATUSES` and `USER_LISTS`. */
    const statuses: set<string>
    const listNames: set<string>
    var animeUserData: map<int, UserInfo>
    var userLists: map<string, seq<int>>
    var maxEpisodes: map<int, int>

    constructor (statuses: set<string>, listNames: set<string>)
      ensures this.statuses == statuses && this.listNames == listNames
      ensures animeUserData == map[] && userLists == map[] && maxEpisodes == map[]
    {
      this.statuses := statuses;
      this.listNames := listNames;
      animeUserData := map[];
      userLists := map[];
      maxEpisodes := map[];
    }

    /** Every entry is stored under its own media id, as `set_user_data`
        stores it. */
    predicate Valid()
      reads this
    {
      forall m :: m in animeUserData ==> animeUserData[m].mediaId == m
    }

    /** The stored status of a media, "" when it has no entry. */
    function OldStatus(mediaId: int): (s: string)
      reads this
      ensures mediaId !in animeUserData ==> s == ""
    {
      if mediaId in animeUserData then animeUserData[mediaId].status else ""
    }

    /** The stored progress of a media, -1 when it has no entry. */
    function OldProgress(mediaId: int): (p: int)
      reads this
      ensures mediaId !in animeUserData ==> p == -1
    {
      if mediaId in animeUserData then animeUserData[mediaId].progress else -1
    }

    /** `get_user_data`: the stored entry, or an error when there is none. */
    function GetUserData(mediaId: int): (r: Result<UserInfo, string>)
      reads this
      ensures r.Err? <==> mediaId !in animeUserData
      ensures r.Err? ==> r.error == "data does not exist"
      ensures r.Ok? ==> r.value == animeUserData[mediaId]
    {
      if mediaId in animeUserData then Ok(animeUserData[mediaId]) else Err("data does not exist")
    }

    /** `get_list`: the ids on a list; a name outside `USER_LISTS` is an
        error. A valid name whose list is missing makes the source panic, so
        the list must be there. */
    function GetList(name: string): (r: Result<seq<int>, string>)
      reads this
      requires name in listNames ==> name in userLists
      ensures r.Err? <==> name !in listNames
      ensures r.Err? ==> r.error == "invalid list"
      ensures r.Ok? ==> r.value == userLists[name]
    {
      if name !in listNames then Err("invalid list") else Ok(userLists[name])
    }

    /** `check_correct_list`: on a status change that leaves its list, the
        media is taken out of every list and pushed onto the list of its new
        status (REPEATING onto CURRENT) — only when that list exists. */
    method CheckCorrectList(data: UserInfo)
      modifies this
      ensures userLists == MovedLists(old(userLists), old(OldStatus(data.mediaId)), data.status, data.mediaId)
      ensures animeUserData == old(animeUserData) && maxEpisodes == old(maxEpisodes)
    {
      var oldStatus := OldStatus(data.mediaId);
      var changeList := false;
      if oldStatus != data.status {
        changeList := true;
        if (oldStatus == "CURRENT" && data.status == "REPEATING")
          || (oldStatus == "REPEATING" && data.status == "CURRENT")
        {
          changeList := false;
        }
      }
      assert changeList == ChangesList(oldStatus, data.status);
      if changeList {
        var removed := RemovedEverywhere(userLists, data.mediaId);
        var list := if data.status == "REPEATING" then "CURRENT" else data.status;
        assert list == TargetList(data.status);
        if list in removed {
          removed := removed[list := removed[list] + [data.mediaId]];
        }
        assert removed == MovedLists(userLists, oldStatus, data.status, data.mediaId);
        userLists := removed;
      }
    }

    /** `set_user_data`: checks the status, moves the media between lists,
        fills in the dates the user left empty, stores the entry and returns
        the one it replaced. `stored` is the entry as stored (the source
        updates its `data` argument in place). */
    method SetUserData(data: UserInfo, maxEps: Option<int>, today: Date)
      returns (r: Result<Option<UserInfo>, string>, stored: UserInfo)
      modifies this
      ensures data.status !in statuses ==>
        r == Err("invalid status") && stored == data
        && animeUserData == old(animeUserData) && userLists == old(userLists)
      ensures maxEpisodes == old(maxEpisodes)
      ensures old(Valid()) ==> Valid()
      ensures data.status in statuses ==>
        var oldStatus, oldProgress := old(OldStatus(data.mediaId)), old(OldProgress(data.mediaId));
        r == Ok(if data.mediaId in old(animeUserData) then Some(old(animeUserData)[data.mediaId]) else None)
        && animeUserData == old(animeUserData)[data.mediaId := stored]
        && userLists == MovedLists(old(userLists), oldStatus, data.status, data.mediaId)
        && stored == AdjustDates(data, oldStatus, oldProgress, maxEps, today)
    {
      stored := data;
      if data.status !in statuses {
        return Err("invalid status"), stored;
      }
      var oldStatus := OldStatus(data.mediaId);
      var oldProgress := OldProgress(data.mediaId);
      CheckCorrectList(data);

      if stored.status == "COMPLETED" && oldStatus != "REPEATING" {
        var setCompleted := false;
        if stored.completedAt.None? {
          setCompleted := true;
        } else if stored.completedAt.value == Empty {
          setCompleted := true;
        }
        if setCompleted {
          stored := stored.(completedAt := Some(today));
        }
        if stored.startedAt.Some? && stored.startedAt.value == Empty {
          if maxEps.Some? && maxEps.value <= 1 {
            stored := stored.(startedAt := stored.completedAt);
          }
          if oldProgress == 0 {
            stored := stored.(startedAt := stored.completedAt);
          }
        }
      }

      if stored.status == "CURRENT" && stored.progress > 0 && oldProgress == 0 {
        if stored.startedAt.Some? && stored.startedAt.value == Empty {
          stored := stored.(startedAt := Some(today));
        }
      }

      r := Ok(if data.mediaId in animeUserData then Some(animeUserData[data.mediaId]) else None);
      animeUserData := animeUserData[data.mediaId := stored];
    }

    /** `increment_episode`: one more episode watched, when the entry and its
        episode count are known and the count is not reached; the entry is
        then stored through `set_user_data`. Always `Ok(true)`. */
    method IncrementEpisode(mediaId: int, today: Date) returns (r: Result<bool, string>)
      requires Valid()
      modifies this
      ensures Valid()
      ensures r == Ok(true)
      ensures maxEpisodes == old(maxEpisodes) && userLists == old(userLists)
      ensures animeUserData.Keys == old(animeUserData).Keys
      ensures forall m :: m in animeUserData && m != mediaId ==> animeUserData[m] == old(animeUserData)[m]
      ensures mediaId in animeUserData ==>
        var before := old(animeUserData)[mediaId];
        animeUserData[mediaId]
          == (if mediaId in maxEpisodes && before.progress < maxEpisodes[mediaId] && before.status in statuses
              then AdjustDates(before.(progress := before.progress + 1), before.status, before.progress,
                               Some(maxEpisodes[mediaId]), today)
              else before)
      ensures mediaId in animeUserData && mediaId in maxEpisodes
        && old(animeUserData)[mediaId].progress <= maxEpisodes[mediaId]
        ==> animeUserData[mediaId].progress <= maxEpisodes[mediaId]
    {
      if mediaId in animeUserData {
        var media := animeUserData[mediaId];
        if mediaId in maxEpisodes {
          var episodes := maxEpisodes[mediaId];
          if media.progress < episodes {
            media := media.(progress := media.progress + 1);
            ghost var lists := userLists;
            MovedListsSpec(lists, OldStatus(media.mediaId), media.status, media.mediaId);
            var result, stored := SetUserData(media, Some(episodes), today);
          }
        }
      }
      r := Ok(true);
    }
  }
}

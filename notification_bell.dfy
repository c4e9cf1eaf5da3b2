/**
 * The notification bell: on every fetch of the user's unread notifications it updates the
 * badge count and raises a toast for each notification it has not announced before. The
 * first fetch only records what is already there, so that old notifications make no noise.
 */
module NotificationBell {
  import opened Optional
  import JsString

  /** One unread row of the notifications table, as the bell reads it. */
  datatype Notification = Notification(id: string, title: string, body: Option<string>, link: Option<string>)

  /** The "view details" button of a toast, which navigates to `target`. */
  datatype ToastAction = ToastAction(caption: string, target: string)

  /** An informational toast that stays until it is closed. */
  datatype Toast = Toast(title: string, description: Option<string>, action: Option<ToastAction>)

  /** What one fetch produced: the query threw, or it answered with rows and an exact count. */
  datatype FetchOutcome = Threw | Answered(data: Option<seq<Notification>>, count: Option<nat>)

  const ViewDetails := "Xem chi tiết"

  /** The toast for a notification: its title and body, and a link button when the link is non-empty. */
  function ToastFor(n: Notification): (t: Toast)
    ensures t.title == n.title && t.description == n.body
    ensures t.action.Some? <==> n.link.Some? && n.link.value != ""
    ensures t.action.Some? ==> t.action.value == ToastAction(ViewDetails, n.link.value)
  {
    var action := if n.link.Some? && n.link.value != "" then Some(ToastAction(ViewDetails, n.link.value)) else None;
    Toast(n.title, n.body, action)
  }

  function IdsOf(batch: seq<Notification>): set<string> {
    set k | 0 <= k < |batch| :: batch[k].id
  }

  /**
   * The notifications of `batch` that are announced when `seen` holds the ids announced or
   * recorded so far: in batch order, each one whose id is neither in `seen` nor earlier in the batch.
   */
  function Announced(seen: set<string>, batch: seq<Notification>): (r: seq<Notification>)
    ensures |r| <= |batch|
    decreases |batch|
  {
    if batch == [] then []
    else if batch[0].id in seen then Announced(seen, batch[1..])
    else [batch[0]] + Announced(seen + {batch[0].id}, batch[1..])
  }

  /** The ids of a sequence of notifications, in order. */
  function IdList(ns: seq<Notification>): (r: seq<string>)
    ensures |r| == |ns| && forall k :: 0 <= k < |ns| ==> r[k] == ns[k].id
  {
    if ns == [] then [] else [ns[0].id] + IdList(ns[1..])
  }

  function ToastsFor(ns: seq<Notification>): (r: seq<Toast>)
    ensures |r| == |ns| && forall k :: 0 <= k < |ns| ==> r[k] == ToastFor(ns[k])
  {
    if ns == [] then [] else [ToastFor(ns[0])] + ToastsFor(ns[1..])
  }

  predicate Distinct(ids: seq<string>) {
    forall i, j :: 0 <= i < j < |ids| ==> ids[i] != ids[j]
  }

  lemma IdsOfCons(batch: seq<Notification>)
    requires batch != []
    ensures IdsOf(batch) == {batch[0].id} + IdsOf(batch[1..])
  {
    var rest := batch[1..];
    forall id | id in IdsOf(batch) ensures id in {batch[0].id} + IdsOf(rest) {
      var k :| 0 <= k < |batch| && batch[k].id == id;
      if k > 0 { assert rest[k - 1] == batch[k]; }
    }
    forall id | id in IdsOf(rest) ensures id in IdsOf(batch) {
      var k :| 0 <= k < |rest| && rest[k].id == id;
      assert batch[k + 1] == rest[k];
    }
  }

  /** Every announced notification comes from the batch and carries an id not seen before. */
  lemma {:induction false} AnnouncedAreNew(seen: set<string>, batch: seq<Notification>)
    ensures forall n :: n in Announced(seen, batch) ==> n in batch && n.id !in seen
    decreases |batch|
  {
    if batch != [] {
      var n, rest := batch[0], batch[1..];
      if n.id in seen {
        AnnouncedAreNew(seen, rest);
      } else {
        AnnouncedAreNew(seen + {n.id}, rest);
        assert Announced(seen, batch) == [n] + Announced(seen + {n.id}, rest);
      }
    }
  }

  /** Every id the batch carries that was not seen before is announced. */
  lemma {:induction false} NewIdsAnnounced(seen: set<string>, batch: seq<Notification>)
    ensures forall id :: id in IdsOf(batch) && id !in seen ==> id in IdList(Announced(seen, batch))
    decreases |batch|
  {
    if batch != [] {
      var n, rest := batch[0], batch[1..];
      IdsOfCons(batch);
      if n.id in seen {
        NewIdsAnnounced(seen, rest);
      } else {
        var tail := Announced(seen + {n.id}, rest);
        NewIdsAnnounced(seen + {n.id}, rest);
        assert Announced(seen, batch) == [n] + tail;
        assert IdList([n] + tail) == [n.id] + IdList(tail);
      }
    }
  }

  /** No id is announced twice, even when the batch repeats it. */
  lemma {:induction false} AnnouncedDistinct(seen: set<string>, batch: seq<Notification>)
    ensures Distinct(IdList(Announced(seen, batch)))
    decreases |batch|
  {
    if batch != [] {
      var n, rest := batch[0], batch[1..];
      if n.id in seen {
        AnnouncedDistinct(seen, rest);
      } else {
        var seen' := seen + {n.id};
        var tail := Announced(seen', rest);
        AnnouncedDistinct(seen', rest);
        AnnouncedAreNew(seen', rest);
        assert Announced(seen, batch) == [n] + tail;
        var ids := IdList([n] + tail);
        assert ids == [n.id] + IdList(tail);
        forall i, j | 0 <= i < j < |ids| ensures ids[i] != ids[j] {
          if i == 0 {
            assert tail[j - 1] in tail;
          }
        }
      }
    }
  }

  /**
   * Exactly the new ids are announced: an id is announced iff the batch carries it and it was
   * not seen; and no id is announced twice, even when the batch repeats it.
   */
  lemma AnnouncedExactlyNew(seen: set<string>, batch: seq<Notification>)
    ensures forall n :: n in Announced(seen, batch) ==> n in batch && n.id !in seen
    ensures forall id :: id in IdsOf(batch) && id !in seen ==> id in IdList(Announced(seen, batch))
    ensures Distinct(IdList(Announced(seen, batch)))
  {
    AnnouncedAreNew(seen, batch);
    NewIdsAnnounced(seen, batch);
    AnnouncedDistinct(seen, batch);
  }

  /** The bell's state across fetches. */
  class Bell {
    var unreadCount: nat
    var notifiedIds: set<string>
    var firstFetchDone: bool
    /** Every id a toast was raised for, over the bell's lifetime. */
    ghost var toasted: seq<string>

    /** No id is toasted twice, every toasted id is recorded, and nothing is toasted before the first fetch. */
    ghost predicate Valid()
      reads this
    {
      && Distinct(toasted)
      && (forall k :: 0 <= k < |toasted| ==> toasted[k] in notifiedIds)
      && (!firstFetchDone ==> toasted == [])
    }

    constructor ()
      ensures Valid()
      ensures unreadCount == 0 && notifiedIds == {} && !firstFetchDone && toasted == []
    {
      unreadCount := 0;
      notifiedIds := {};
      firstFetchDone := false;
      toasted := [];
    }

    /**
     * One fetch: the badge count becomes `count || 0`; the first answer with rows only records
     * their ids; every later one toasts the rows not recorded before and records them.
     */
    method FetchCountAndNew(outcome: FetchOutcome) returns (toasts: seq<Toast>)
      requires Valid()
      modifies this
      ensures Valid()
      ensures old(notifiedIds) <= notifiedIds
      ensures old(firstFetchDone) ==> firstFetchDone
      ensures outcome.Threw? ==>
        && toasts == [] && unreadCount == old(unreadCount) && notifiedIds == old(notifiedIds)
        && firstFetchDone == old(firstFetchDone) && toasted == old(toasted)
      ensures outcome.Answered? ==> unreadCount == outcome.count.GetOr(0)
      ensures outcome.Answered? && outcome.data.None? ==>
        && toasts == [] && notifiedIds == old(notifiedIds)
        && firstFetchDone == old(firstFetchDone) && toasted == old(toasted)
      ensures outcome.Answered? && outcome.data.Some? ==>
        && notifiedIds == old(notifiedIds) + IdsOf(outcome.data.value)
        && firstFetchDone
      ensures outcome.Answered? && outcome.data.Some? && !old(firstFetchDone) ==>
        toasts == [] && toasted == old(toasted)
      ensures outcome.Answered? && outcome.data.Some? && old(firstFetchDone) ==>
        var news := Announced(old(notifiedIds), outcome.data.value);
        toasts == ToastsFor(news) && toasted == old(toasted) + IdList(news)
    {
      toasts := [];
      if outcome.Threw? {
        return;
      }
      unreadCount := outcome.count.GetOr(0);
      if outcome.data.None? {
        return;
      }
      if !firstFetchDone {
        Seed(outcome.data.value);
      } else {
        toasts := Announce(outcome.data.value);
      }
    }

    /** The first answer: record every id, raise nothing. */
    method Seed(data: seq<Notification>)
      requires Valid() && !firstFetchDone
      modifies this`notifiedIds, this`firstFetchDone
      ensures Valid()
      ensures notifiedIds == old(notifiedIds) + IdsOf(data) && firstFetchDone
    {
      var i := 0;
      while i < |data|
        invariant 0 <= i <= |data|
        invariant notifiedIds == old(notifiedIds) + IdsOf(data[..i])
      {
        IdsOfSnoc(data, i);
        notifiedIds := notifiedIds + {data[i].id};
        i := i + 1;
      }
      assert data[..i] == data;
      firstFetchDone := true;
    }

    /** A later answer: toast each row whose id is not recorded yet, and record it. */
    method Announce(data: seq<Notification>) returns (toasts: seq<Toast>)
      requires Valid() && firstFetchDone
      modifies this`notifiedIds, this`toasted
      ensures Valid()
      ensures notifiedIds == old(notifiedIds) + IdsOf(data)
      ensures toasts == ToastsFor(Announced(old(notifiedIds), data))
      ensures toasted == old(toasted) + IdList(Announced(old(notifiedIds), data))
    {
      toasts := RecordNew(data);
      ValidAfterAnnouncing(old(notifiedIds), data, old(toasted));
    }

    /** The loop over a later answer, in row order. */
    method RecordNew(data: seq<Notification>) returns (toasts: seq<Toast>)
      modifies this`notifiedIds, this`toasted
      ensures notifiedIds == old(notifiedIds) + IdsOf(data)
      ensures toasts == ToastsFor(Announced(old(notifiedIds), data))
      ensures toasted == old(toasted) + IdList(Announced(old(notifiedIds), data))
    {
      ghost var announced: seq<Notification> := [];
      toasts := [];
      var i := 0;
      while i < |data|
        invariant 0 <= i <= |data|
        invariant notifiedIds == old(notifiedIds) + IdsOf(data[..i])
        invariant announced + Announced(notifiedIds, data[i..]) == Announced(old(notifiedIds), data)
        invariant toasts == ToastsFor(announced)
        invariant toasted == old(toasted) + IdList(announced)
      {
        var n := data[i];
        AnnounceStep(notifiedIds, announced, data, i);
        if n.id !in notifiedIds {
          notifiedIds := notifiedIds + {n.id};
          toasts := toasts + [ToastFor(n)];
          toasted := toasted + [n.id];
          announced := announced + [n];
        }
        i := i + 1;
      }
      assert data[..i] == data && data[i..] == [];
      assert announced == Announced(old(notifiedIds), data);
    }
  }

  /** The ids of a prefix grow by one id per row. */
  lemma IdsOfSnoc(data: seq<Notification>, i: nat)
    requires i < |data|
    ensures IdsOf(data[..i + 1]) == IdsOf(data[..i]) + {data[i].id}
  {
    var a, b := data[..i + 1], data[..i];
    forall id | id in IdsOf(a) ensures id in IdsOf(b) + {data[i].id} {
      var k :| 0 <= k < |a| && a[k].id == id;
      if k < i { assert b[k] == a[k]; }
    }
    forall id | id in IdsOf(b) ensures id in IdsOf(a) {
      var k :| 0 <= k < |b| && b[k].id == id;
      assert a[k] == b[k];
    }
    assert a[i] == data[i];
  }

  /** One step of the announcing loop: row `i` is announced iff its id is new, and its id joins the prefix's ids. */
  lemma AnnounceStep(seen: set<string>, announced: seq<Notification>, data: seq<Notification>, i: nat)
    requires i < |data|
    ensures IdsOf(data[..i + 1]) == IdsOf(data[..i]) + {data[i].id}
    ensures var n := data[i];
      if n.id in seen then
        announced + Announced(seen, data[i..]) == announced + Announced(seen, data[i + 1..])
      else
        && announced + Announced(seen, data[i..]) == (announced + [n]) + Announced(seen + {n.id}, data[i + 1..])
        && ToastsFor(announced + [n]) == ToastsFor(announced) + [ToastFor(n)]
        && IdList(announced + [n]) == IdList(announced) + [n.id]
  {
    IdsOfSnoc(data, i);
    assert data[i..][1..] == data[i + 1..];
  }

  /** Appending the ids announced from a batch keeps them distinct from, and as recorded as, earlier toasts. */
  lemma ValidAfterAnnouncing(seen: set<string>, batch: seq<Notification>, toasted: seq<string>)
    requires Distinct(toasted) && forall k :: 0 <= k < |toasted| ==> toasted[k] in seen
    ensures var all := toasted + IdList(Announced(seen, batch));
      && Distinct(all)
      && forall k :: 0 <= k < |all| ==> all[k] in seen + IdsOf(batch)
  {
    var news := Announced(seen, batch);
    AnnouncedExactlyNew(seen, batch);
    var all := toasted + IdList(news);
    forall i, j | 0 <= i < j < |all| ensures all[i] != all[j] {
      if j >= |toasted| && i < |toasted| {
        assert news[j - |toasted|] in news;
      } else if i >= |toasted| {
        assert IdList(news)[i - |toasted|] != IdList(news)[j - |toasted|];
      }
    }
    forall k | 0 <= k < |all| ensures all[k] in seen + IdsOf(batch) {
      if k >= |toasted| {
        var n := news[k - |toasted|];
        assert n in news;
        var m :| 0 <= m < |batch| && batch[m] == n;
      }
    }
  }

  /** The badge: hidden at zero, "99+" above 99, otherwise the count in decimal. */
  function BadgeLabel(unreadCount: nat): (badge: Option<string>)
    ensures badge.None? <==> unreadCount == 0
    ensures unreadCount > 99 ==> badge == Some("99+")
    ensures 0 < unreadCount <= 99 ==>
      && badge == Some(JsString.DecimalString(unreadCount))
      && 1 <= |badge.value| <= 2 && JsString.AllDigits(badge.value) && badge.value[0] != '0'
      && JsString.ParseInt(badge.value) == Some(unreadCount)
  {
    if unreadCount == 0 then None
    else if unreadCount > 99 then Some("99+")
    else
      JsString.ParseDecimal(unreadCount);
      assert unreadCount / 10 < 10;
      Some(JsString.DecimalString(unreadCount))
  }
}

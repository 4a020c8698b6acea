/** The client-side server fragment that records when a post entered "in
    progress" and "resolved": its schema (status enumeration and default,
    creation time, two optional timestamps) and its status route, which
    writes `status` and each timestamp only when the request carries a
    truthy one. */
module LifecycleTimestamps {
  import opened Wrappers
  import opened PostSchema

  datatype TrackedPost = TrackedPost(
    id: PostId,
    status: string,
    createdAt: int,
    inProgressAt: Option<int>,
    resolvedAt: Option<int>)

  /** A new document: status defaults to "pending", `createdAt` to now, the
      two timestamps are absent. */
  function NewTracked(id: PostId, status: string, now: int): (p: TrackedPost)
    ensures status == "" ==> p.status == Pending
    ensures p.createdAt == now && p.inProgressAt.None? && p.resolvedAt.None?
  {
    TrackedPost(id, StatusOrDefault(status), now, None, None)
  }

  /** JavaScript truthiness of a numeric timestamp in the request: absent or
      zero is falsy. */
  predicate Truthy(t: Option<int>) {
    t.Some? && t.value != 0
  }

  /** `updateData`: `status` always (an absent one writes nothing), and a
      timestamp only when truthy. */
  function ApplyUpdate(p: TrackedPost, status: Option<string>, inProgressAt: Option<int>, resolvedAt: Option<int>): TrackedPost {
    p.(status := if status.Some? then status.value else p.status,
       inProgressAt := if Truthy(inProgressAt) then inProgressAt else p.inProgressAt,
       resolvedAt := if Truthy(resolvedAt) then resolvedAt else p.resolvedAt)
  }

  function Find(store: seq<TrackedPost>, id: PostId): (i: int)
    ensures -1 <= i < |store|
    ensures i >= 0 ==> store[i].id == id
    ensures i < 0 ==> forall k :: 0 <= k < |store| ==> store[k].id != id
  {
    if store == [] then -1
    else if store[0].id == id then 0
    else
      var r := Find(store[1..], id);
      if r < 0 then
        assert forall k :: 1 <= k < |store| ==> store[k].id == store[1..][k - 1].id;
        -1
      else r + 1
  }

  /** `PUT /api/posts/:id/status`: the updated document, or `null` (as a
      200 reply) when no document has the id. There is no authorisation and
      no check on the transition. */
  function UpdateStatus(store: seq<TrackedPost>, id: PostId, status: Option<string>,
                        inProgressAt: Option<int>, resolvedAt: Option<int>): (seq<TrackedPost>, Option<TrackedPost>)
  {
    var i := Find(store, id);
    if i < 0 then (store, None)
    else
      var p := ApplyUpdate(store[i], status, inProgressAt, resolvedAt);
      (store[i := p], Some(p))
  }

  /** The update writes the given status, writes each timestamp exactly when
      the request's is truthy and keeps the stored one otherwise, and leaves
      the id and creation time alone; any status may follow any other. */
  lemma {:induction false} UpdateWritesOnly(p: TrackedPost, status: Option<string>, inProgressAt: Option<int>, resolvedAt: Option<int>)
    ensures var q := ApplyUpdate(p, status, inProgressAt, resolvedAt);
      && q.id == p.id && q.createdAt == p.createdAt
      && (status.Some? ==> q.status == status.value)
      && (status.None? ==> q.status == p.status)
      && (Truthy(inProgressAt) ==> q.inProgressAt == inProgressAt)
      && (!Truthy(inProgressAt) ==> q.inProgressAt == p.inProgressAt)
      && (Truthy(resolvedAt) ==> q.resolvedAt == resolvedAt)
      && (!Truthy(resolvedAt) ==> q.resolvedAt == p.resolvedAt)
  {
  }

  /** The document with the id becomes its update and is the reply; every
      other document is kept, and an unknown id answers `null` without
      changing anything. */
  lemma {:induction false} UpdateStatusOutcome(store: seq<TrackedPost>, id: PostId, status: Option<string>,
                            inProgressAt: Option<int>, resolvedAt: Option<int>)
    ensures var (s, reply) := UpdateStatus(store, id, status, inProgressAt, resolvedAt);
      && |s| == |store|
      && (reply.None? <==> forall k :: 0 <= k < |store| ==> store[k].id != id)
      && (reply.None? ==> s == store)
      && (forall k :: 0 <= k < |store| && store[k].id != id ==> s[k] == store[k])
      && (reply.Some? ==>
            exists i :: (0 <= i < |store| && store[i].id == id
                         && s[i] == ApplyUpdate(store[i], status, inProgressAt, resolvedAt)
                         && reply.value == s[i]))
  {
  }

  /** Moving a resolved post back to "pending" without sending `resolvedAt`
      keeps the old resolution time. */
  lemma {:induction false} ReopenKeepsResolvedAt(p: TrackedPost, t: int)
    requires p.status == Resolved && p.resolvedAt == Some(t)
    ensures var q := ApplyUpdate(p, Some(Pending), None, None);
      q.status == Pending && q.resolvedAt == Some(t)
  {
  }
}

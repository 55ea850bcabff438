/**
 Metadata of one prompt group held in a staleness buffer.

 The group fields are "one value for the whole group" until two requests
 disagree, and a list with one element per request from then on.
 */
module EntryInfo {

  /** A group field: shared by every request of the group, or one element per request. */
  datatype OneOrMany<T> = One(value: T) | Many(values: seq<T>) {

    /** What the field says about the request at position k of the group. */
    function At(k: nat): T
      requires One? || k < |values|
    {
      if One? then value else values[k]
    }
  }

  datatype Info = Info(
    prompt: nat,
    requests: OneOrMany<int>,
    versions: OneOrMany<int>,
    instances: OneOrMany<int>,
    trajectories: OneOrMany<int>)

  /** The request indices of the group, as a list. */
  function Requests(info: Info): seq<int> {
    match info.requests
    case One(r) => [r]
    case Many(rs) => rs
  }

  /** A field has one element per request, or is shared. */
  predicate Aligned<T>(field: OneOrMany<T>, n: nat) {
    field.Many? ==> |field.values| == n
  }

  /** Smallest element; the empty list, which no operation builds, counts as 0. */
  function Least(vs: seq<int>): (m: int)
    ensures vs != [] ==> m in vs
    ensures forall v :: v in vs ==> m <= v
  {
    if |vs| == 0 then 0
    else if |vs| == 1 then vs[0]
    else
      var rest := Least(vs[1..]);
      assert forall v :: v in vs ==> v == vs[0] || v in vs[1..];
      if vs[0] <= rest then vs[0] else rest
  }

  /** The version that constrains the group: the oldest one recorded. */
  function Version(info: Info): int {
    match info.versions
    case One(v) => v
    case Many(vs) => Least(vs)
  }

  /** Largest element, with the same convention. */
  function Greatest(vs: seq<int>): (m: int)
    ensures vs != [] ==> m in vs
    ensures forall v :: v in vs ==> v <= m
  {
    if |vs| == 0 then 0
    else if |vs| == 1 then vs[0]
    else
      var rest := Greatest(vs[1..]);
      assert forall v :: v in vs ==> v == vs[0] || v in vs[1..];
      if vs[0] >= rest then vs[0] else rest
  }

  /** The newest version on record. */
  function Newest(info: Info): (m: int)
    ensures Version(info) <= m
  {
    match info.versions
    case One(v) => v
    case Many(vs) =>
      assert vs != [] ==> Least(vs) in vs;
      Greatest(vs)
  }

  /** The lists are not empty, a version list covers the request list, and an instance list lines up with it. */
  predicate Recorded(info: Info) {
    && Requests(info) != []
    && (info.versions.Many? ==>
          info.requests.Many? && |info.requests.values| <= |info.versions.values|)
    && (info.instances.Many? ==>
          info.requests.Many? && |info.requests.values| == |info.instances.values|)
  }

  function Repeat<T>(n: nat, x: T): (xs: seq<T>)
    ensures |xs| == n && forall i :: 0 <= i < n ==> xs[i] == x
  {
    seq(n, _ => x)
  }

  /**
   Append x to a field. A shared value that differs from x is first spread over
   `copies` elements.
   */
  function Append<T(==)>(field: OneOrMany<T>, copies: nat, x: T): OneOrMany<T> {
    match field
    case One(y) => if x == y then field else Many(Repeat(copies, y) + [x])
    case Many(ys) => Many(ys + [x])
  }

  /**
   A further request of an already reserved prompt. A retry of a known request
   changes nothing but the list form of the request indices. The version field is spread over
   as many copies as there are requests AFTER the append, the two others over one less.
   */
  function Join(info: Info, request: int, version: int, inst: int, n: int): Info {
    var known := Requests(info);
    if request in known then info.(requests := Many(known))
    else
      var all := known + [request];
      info.(requests := Many(all),
            versions := Append(info.versions, |all|, version),
            instances := Append(info.instances, |all| - 1, inst),
            trajectories := Append(info.trajectories, |all| - 1, n))
  }

  function IndexOf(xs: seq<int>, x: int): (k: nat)
    requires x in xs
    ensures k < |xs| && xs[k] == x && x !in xs[..k]
  {
    if xs[0] == x then 0 else 1 + IndexOf(xs[1..], x)
  }

  /** Record that `request` now runs under `version`. */
  function Retag(info: Info, request: int, version: int): (r: Info)
    requires info.requests.Many? ==> request in info.requests.values
    requires Recorded(info)
  {
    match info.versions
    case Many(vs) => info.(versions := Many(vs[IndexOf(info.requests.values, request) := version]))
    case One(v) =>
      if v == version then info
      else if info.requests.Many? then
        var rs := info.requests.values;
        info.(versions := Many(Repeat(|rs|, v)[IndexOf(rs, request) := version]))
      else info.(versions := One(version))
  }

  /** Elements of xs at the positions whose request survives. */
  function Surviving<T>(requests: seq<int>, gone: set<int>, xs: seq<T>): (ys: seq<T>)
    requires |requests| <= |xs|
  {
    if requests == [] then []
    else
      var rest := Surviving(requests[1..], gone, xs[1..]);
      if requests[0] in gone then rest else [xs[0]] + rest
  }

  function Filtered<T>(requests: seq<int>, gone: set<int>, field: OneOrMany<T>): OneOrMany<T>
    requires field.Many? ==> |requests| <= |field.values|
  {
    match field
    case One(_) => field
    case Many(xs) => Many(Surviving(requests, gone, xs))
  }

  /** Drop some requests of a group; the trajectory counts are not filtered. */
  function AbortSome(info: Info, gone: set<int>): Info
    requires info.requests.Many?
    requires info.versions.Many? ==> |info.requests.values| <= |info.versions.values|
    requires info.instances.Many? ==> |info.requests.values| <= |info.instances.values|
  {
    var rs := info.requests.values;
    info.(requests := Many(Surviving(rs, gone, rs)),
          versions := Filtered(rs, gone, info.versions),
          instances := Filtered(rs, gone, info.instances))
  }

  // ---- What a join records ----

  lemma ExtremesOfAppend(vs: seq<int>, v: int)
    requires vs != []
    ensures Least(vs + [v]) == if v < Least(vs) then v else Least(vs)
    ensures Greatest(vs + [v]) == if v > Greatest(vs) then v else Greatest(vs)
  {
    var ws := vs + [v];
    assert forall x :: x in ws <==> x in vs || x == v;
    assert Least(vs) in ws && Greatest(vs) in ws && v in ws;
  }

  /** The group version after a join is the older of the two, in every case. */
  lemma JoinVersion(info: Info, request: int, version: int, inst: int, n: int)
    requires Recorded(info)
    requires request !in Requests(info)
    ensures Recorded(Join(info, request, version, inst, n))
    ensures Version(Join(info, request, version, inst, n)) == if version < Version(info) then version else Version(info)
    ensures Newest(Join(info, request, version, inst, n)) == if version > Newest(info) then version else Newest(info)
  {
    var all := Requests(info) + [request];
    match info.versions
    case One(v) =>
      if v != version {
        var copies := Repeat(|all|, v);
        assert copies[0] in copies && forall x :: x in copies ==> x == v;
        ExtremesOfAppend(copies, version);
      }
    case Many(vs) => ExtremesOfAppend(vs, version);
  }

  /** Appending with one copy per earlier request keeps a field aligned and every element in place. */
  lemma AppendAligned<T>(field: OneOrMany<T>, n: nat, x: T)
    requires Aligned(field, n)
    ensures Aligned(Append(field, n, x), n + 1)
    ensures forall k :: 0 <= k < n ==> Append(field, n, x).At(k) == field.At(k)
    ensures Append(field, n, x).At(n) == x
  {
  }

  /**
   The version field is right at the new request's own position, and stays aligned, exactly
   when the group did not have to be spread: it was a list already, or the versions agree.
   */
  lemma JoinAlignment(info: Info, request: int, version: int, inst: int, n: int)
    requires Requests(info) != [] && request !in Requests(info)
    requires Aligned(info.versions, |Requests(info)|)
    requires Aligned(info.instances, |Requests(info)|)
    requires Aligned(info.trajectories, |Requests(info)|)
    ensures var k := |Requests(info)|; var j := Join(info, request, version, inst, n);
            && Requests(j) == Requests(info) + [request]
            && Aligned(j.instances, k + 1) && j.instances.At(k) == inst
            && Aligned(j.trajectories, k + 1) && j.trajectories.At(k) == n
            && (Aligned(j.versions, k + 1) <==> info.versions.Many? || info.versions.value == version)
            && (j.versions.One? || k < |j.versions.values|)
            && (j.versions.At(k) == version <==> info.versions.Many? || info.versions.value == version)
  {
    AppendAligned(info.instances, |Requests(info)|, inst);
    AppendAligned(info.trajectories, |Requests(info)|, n);
  }

  // ---- What a retag records ----

  /**
   After a retag the group version is at most the tag, and at least the older of the tag and the
   version before: a bound the group met before is met afterwards exactly when the tag meets it.
   */
  lemma RetagVersion(info: Info, request: int, version: int)
    requires info.requests.Many? ==> request in info.requests.values
    requires Recorded(info)
    ensures var after := Retag(info, request, version);
            && Recorded(after) && Version(after) <= version
            && (version <= Version(after) || Version(info) <= Version(after))
            && (Newest(after) == version || Newest(after) <= Newest(info))
  {
    var after := Retag(info, request, version).versions;
    if after.Many? {
      var k := IndexOf(info.requests.values, request);
      assert after.values[k] == version && version in after.values;
      forall v | v in after.values
        ensures v == version || Version(info) <= v <= Newest(info)
      {
        var i :| 0 <= i < |after.values| && after.values[i] == v;
        assert info.versions.Many? ==> info.versions.values[i] in info.versions.values;
      }
    }
  }

  // ---- What a partial abort keeps ----

  /** Filtering a list by request leaves the element that belongs to each survivor at the survivor's place. */
  lemma {:induction false} SurvivorKeepsElement<T>(requests: seq<int>, gone: set<int>, xs: seq<T>, r: int)
    requires |requests| <= |xs| && r in requests && r !in gone
    ensures |Surviving(requests, gone, requests)| == |Surviving(requests, gone, xs)|
    ensures r in Surviving(requests, gone, requests)
    ensures Surviving(requests, gone, xs)[IndexOf(Surviving(requests, gone, requests), r)] == xs[IndexOf(requests, r)]
  {
    SurvivingLength(requests, gone, xs);
    if requests[0] != r {
      var kept := Surviving(requests[1..], gone, requests[1..]);
      SurvivorKeepsElement(requests[1..], gone, xs[1..], r);
      if requests[0] !in gone {
        var all := Surviving(requests, gone, requests);
        assert all == [requests[0]] + kept && all[1..] == kept;
      }
    }
  }

  lemma SurvivingLength<T>(requests: seq<int>, gone: set<int>, xs: seq<T>)
    requires |requests| <= |xs|
    ensures |Surviving(requests, gone, requests)| == |Surviving(requests, gone, xs)|
  {
  }

  /** With an aligned version field a partial abort keeps the version of every surviving request. */
  lemma AbortKeepsVersions(info: Info, gone: set<int>, r: int)
    requires info.requests.Many? && r in info.requests.values && r !in gone
    requires Aligned(info.versions, |info.requests.values|)
    requires info.instances.Many? ==> |info.requests.values| <= |info.instances.values|
    ensures var after := AbortSome(info, gone);
            && r in after.requests.values
            && Aligned(after.versions, |after.requests.values|)
            && after.versions.At(IndexOf(after.requests.values, r)) == info.versions.At(IndexOf(info.requests.values, r))
            && Version(after) <= info.versions.At(IndexOf(info.requests.values, r))
  {
    var rs := info.requests.values;
    SurvivorKeepsElement(rs, gone, rs, r);
    if info.versions.Many? {
      SurvivorKeepsElement(rs, gone, info.versions.values, r);
      var after := AbortSome(info, gone);
      assert after.versions.values[IndexOf(after.requests.values, r)] in after.versions.values;
    }
  }

  /** With every earlier request gone, a covering list is left with the element at the last request's position. */
  lemma {:induction false} OnlyLastSurvives<T>(requests: seq<int>, gone: set<int>, r: int, xs: seq<T>)
    requires |requests| < |xs| && (forall q :: q in requests ==> q in gone) && r !in gone
    ensures Surviving(requests + [r], gone, xs) == [xs[|requests|]]
  {
    var all := requests + [r];
    if requests == [] {
      assert all[1..] == [] && Surviving(all[1..], gone, xs[1..]) == [];
    } else {
      OnlyLastSurvives(requests[1..], gone, r, xs[1..]);
      assert all[1..] == requests[1..] + [r] && all[0] == requests[0] && requests[0] in requests;
    }
  }

  /**
   Aborting every earlier request of the group leaves the joining request's version on record
   exactly when the join did not spread a shared version.
   */
  lemma JoinThenAbort(info: Info, request: int, version: int, inst: int, n: int)
    requires Requests(info) != [] && request !in Requests(info)
    requires Aligned(info.versions, |Requests(info)|) && Aligned(info.instances, |Requests(info)|)
    ensures var joined := Join(info, request, version, inst, n);
            var after := AbortSome(joined, set r | r in Requests(info));
            && Requests(after) == [request]
            && (Version(after) == version <==> info.versions.Many? || info.versions.value == version)
  {
    var known := Requests(info);
    var joined := Join(info, request, version, inst, n);
    var gone := set r | r in known;
    var all := known + [request];
    OnlyLastSurvives(known, gone, request, all);
    if joined.versions.Many? {
      OnlyLastSurvives(known, gone, request, joined.versions.values);
    }
  }

  // ---- The recorded versions against the requests' own ----

  /** What the record shows for a request of the group. */
  function Shown(info: Info, r: int): int
    requires Recorded(info) && r in Requests(info)
  {
    info.versions.At(IndexOf(Requests(info), r))
  }

  /**
   `own` gives the version each request of the group really runs under. What the record shows for a
   request is no newer than that.
   */
  predicate Covers(info: Info, own: map<int, int>)
    requires Recorded(info)
  {
    && own.Keys == (set r | r in Requests(info))
    && forall r :: r in Requests(info) ==> Shown(info, r) <= own[r]
  }

  /** No request is older than the oldest version on record; versions that line up with the requests are covered. */
  predicate Follows(info: Info, own: map<int, int>)
    requires Recorded(info)
  {
    && own.Keys == (set r | r in Requests(info))
    && (forall r :: r in own ==> Version(info) <= own[r])
    && (Aligned(info.versions, |Requests(info)|) ==> Covers(info, own))
  }

  lemma ShownIsRecorded(info: Info, r: int)
    requires Recorded(info) && r in Requests(info)
    ensures Version(info) <= Shown(info, r)
  {
    if info.versions.Many? {
      assert Shown(info, r) in info.versions.values;
    }
  }

  lemma CoversFollows(info: Info, own: map<int, int>)
    requires Recorded(info) && Covers(info, own)
    ensures Follows(info, own)
  {
    forall r | r in own
      ensures Version(info) <= own[r]
    {
      ShownIsRecorded(info, r);
    }
  }

  lemma {:induction false} IndexOfAppend(xs: seq<int>, x: int, y: int)
    requires y !in xs && (x in xs || x == y)
    ensures IndexOf(xs + [y], x) == if x in xs then IndexOf(xs, x) else |xs|
  {
    if xs != [] && xs[0] != x {
      assert (xs + [y])[1..] == xs[1..] + [y];
      IndexOfAppend(xs[1..], x, y);
    }
  }

  // ---- Retries ----

  function Retried(info: Info): Info {
    info.(requests := Many(Requests(info)))
  }

  lemma RetriedShows(info: Info, r: int)
    requires Recorded(info) && r in Requests(info)
    ensures Recorded(Retried(info)) && Requests(Retried(info)) == Requests(info)
    ensures Shown(Retried(info), r) == Shown(info, r) && Version(Retried(info)) == Version(info)
  {
  }

  /** A retry drops the version it arrives with; the record still covers it exactly when it shows no newer one. */
  lemma RetryCovers(info: Info, own: map<int, int>, request: int, version: int)
    requires Recorded(info) && Covers(info, own) && request in Requests(info)
    ensures Recorded(Retried(info))
    ensures Covers(Retried(info), own[request := version]) <==> Shown(info, request) <= version
  {
    forall r | r in Requests(info)
      ensures Shown(Retried(info), r) == Shown(info, r)
    {
      RetriedShows(info, r);
    }
    assert request in Requests(Retried(info));
  }

  lemma RetryFollows(info: Info, own: map<int, int>, request: int, version: int)
    requires Recorded(info) && Follows(info, own) && request in Requests(info) && Shown(info, request) <= version
    ensures Recorded(Retried(info)) && Follows(Retried(info), own[request := version])
  {
    RetriedShows(info, request);
    ShownIsRecorded(info, request);
    if Aligned(info.versions, |Requests(info)|) {
      RetryCovers(info, own, request, version);
    }
  }

  // ---- Joins ----

  /** What the record will show for a request that joins the group now. */
  function ShownToNext(info: Info, version: int): int {
    match info.versions
    case One(v) => v
    case Many(vs) => if |Requests(info)| < |vs| then vs[|Requests(info)|] else version
  }

  lemma JoinPlaces(info: Info, request: int, version: int, inst: int, n: int, r: int)
    requires request !in Requests(info) && (r in Requests(info) || r == request)
    ensures var joined := Join(info, request, version, inst, n);
            && Requests(joined) == Requests(info) + [request]
            && IndexOf(Requests(joined), r) == if r in Requests(info) then IndexOf(Requests(info), r) else |Requests(info)|
  {
    IndexOfAppend(Requests(info), r, request);
  }

  /** The elements of the version field after a join that makes n requests. */
  lemma JoinedAt(versions: OneOrMany<int>, n: nat, version: int, k: nat)
    requires k < n && (versions.Many? ==> n - 1 <= |versions.values|)
    ensures Append(versions, n, version).Many? ==> n <= |Append(versions, n, version).values|
    ensures Append(versions, n, version).At(k) ==
      if versions.One? || k < |versions.values| then versions.At(k) else version
  {
  }

  lemma JoinShows(info: Info, request: int, version: int, inst: int, n: int, r: int)
    requires Recorded(info) && request !in Requests(info) && (r in Requests(info) || r == request)
    ensures var joined := Join(info, request, version, inst, n);
            && Recorded(joined) && r in Requests(joined)
            && Shown(joined, r) == if r == request then ShownToNext(info, version) else Shown(info, r)
  {
    JoinVersion(info, request, version, inst, n);
    JoinPlaces(info, request, version, inst, n, r);
    JoinedAt(info.versions, |Requests(info)| + 1, version, if r == request then |Requests(info)| else IndexOf(Requests(info), r));
  }

  /** A join keeps the group covered exactly when the record will show the request no newer version than its own. */
  lemma JoinCovers(info: Info, own: map<int, int>, request: int, version: int, inst: int, n: int)
    requires Recorded(info) && request !in Requests(info) && Covers(info, own)
    ensures Recorded(Join(info, request, version, inst, n))
    ensures Covers(Join(info, request, version, inst, n), own[request := version]) <==> ShownToNext(info, version) <= version
  {
    var joined := Join(info, request, version, inst, n);
    JoinPlaces(info, request, version, inst, n, request);
    JoinShows(info, request, version, inst, n, request);
    forall r | r in Requests(info)
      ensures Shown(joined, r) == Shown(info, r)
    {
      JoinShows(info, request, version, inst, n, r);
    }
    assert request in Requests(joined);
  }

  lemma JoinMembers(info: Info, own: map<int, int>, request: int, version: int, inst: int, n: int)
    requires request !in Requests(info) && own.Keys == (set r | r in Requests(info))
    ensures own[request := version].Keys == (set r | r in Requests(Join(info, request, version, inst, n)))
  {
    JoinPlaces(info, request, version, inst, n, request);
  }

  /** A join never records a version newer than a member's own. */
  lemma JoinFollows(info: Info, own: map<int, int>, request: int, version: int, inst: int, n: int)
    requires Recorded(info) && request !in Requests(info) && Follows(info, own)
    ensures Recorded(Join(info, request, version, inst, n))
    ensures Follows(Join(info, request, version, inst, n), own[request := version])
  {
    var joined := Join(info, request, version, inst, n);
    JoinVersion(info, request, version, inst, n);
    JoinMembers(info, own, request, version, inst, n);
    if Aligned(joined.versions, |Requests(joined)|) {
      JoinCovers(info, own, request, version, inst, n);
    }
  }

  // ---- Retags ----

  lemma RetagShows(info: Info, request: int, version: int, r: int)
    requires Recorded(info) && request in Requests(info) && r in Requests(info)
    ensures var after := Retag(info, request, version);
            && Recorded(after) && Requests(after) == Requests(info)
            && Shown(after, r) == if r == request then version else Shown(info, r)
  {
    var rs := Requests(info);
    assert rs[IndexOf(rs, r)] == r && rs[IndexOf(rs, request)] == request;
  }

  /** Tagging a member changes what the record shows for that member and for no other. */
  lemma RetagCovers(info: Info, own: map<int, int>, request: int, version: int)
    requires Recorded(info) && request in Requests(info) && Covers(info, own)
    ensures Recorded(Retag(info, request, version)) && Covers(Retag(info, request, version), own[request := version])
  {
    RetagShows(info, request, version, request);
    forall r | r in Requests(info)
      ensures Shown(Retag(info, request, version), r) <= own[request := version][r]
    {
      RetagShows(info, request, version, r);
    }
  }

  lemma RetagFollows(info: Info, own: map<int, int>, request: int, version: int)
    requires Recorded(info) && request in Requests(info) && Follows(info, own)
    requires Aligned(info.versions, |Requests(info)|)
    ensures Recorded(Retag(info, request, version)) && Follows(Retag(info, request, version), own[request := version])
  {
    RetagCovers(info, own, request, version);
    CoversFollows(Retag(info, request, version), own[request := version]);
  }

  // ---- Partial aborts ----

  lemma {:induction false} SurvivingMembers(requests: seq<int>, gone: set<int>, r: int)
    ensures r in Surviving(requests, gone, requests) <==> r in requests && r !in gone
  {
    if requests != [] {
      SurvivingMembers(requests[1..], gone, r);
    }
  }

  lemma {:induction false} SurvivingSubset(requests: seq<int>, gone: set<int>, xs: seq<int>)
    requires |requests| <= |xs|
    ensures forall x :: x in Surviving(requests, gone, xs) ==> x in xs
  {
    if requests != [] {
      SurvivingSubset(requests[1..], gone, xs[1..]);
    }
  }

  /** What a partial abort does to the group's record. */
  lemma AbortRecords(info: Info, gone: set<int>)
    requires Recorded(info) && info.requests.Many? && exists r :: r in info.requests.values && r !in gone
    ensures Recorded(AbortSome(info, gone)) && Version(info) <= Version(AbortSome(info, gone))
    ensures Newest(AbortSome(info, gone)) <= Newest(info)
  {
    var rs := info.requests.values;
    var r :| r in rs && r !in gone;
    SurvivingMembers(rs, gone, r);
    if info.versions.Many? {
      var vs := info.versions.values;
      SurvivingLength(rs, gone, vs);
      SurvivingSubset(rs, gone, vs);
    }
    if info.instances.Many? {
      SurvivingLength(rs, gone, info.instances.values);
    }
  }

  /** A partial abort shows every survivor what the record showed before. */
  lemma AbortShows(info: Info, gone: set<int>, r: int)
    requires Recorded(info) && info.requests.Many? && r in Requests(info) && r !in gone
    ensures Recorded(AbortSome(info, gone)) && r in Requests(AbortSome(info, gone))
    ensures Shown(AbortSome(info, gone), r) == Shown(info, r)
  {
    AbortRecords(info, gone);
    var rs := info.requests.values;
    SurvivorKeepsElement(rs, gone, rs, r);
    if info.versions.Many? {
      SurvivorKeepsElement(rs, gone, info.versions.values, r);
    }
  }

  lemma AbortMembers(info: Info, own: map<int, int>, gone: set<int>)
    requires info.requests.Many? && own.Keys == (set r | r in Requests(info)) && Recorded(info)
    ensures (own - gone).Keys == (set r | r in Requests(AbortSome(info, gone)))
  {
    forall r
      ensures r in own - gone <==> r in Requests(AbortSome(info, gone))
    {
      SurvivingMembers(info.requests.values, gone, r);
    }
  }

  /** A partial abort keeps a group covered, whichever requests go. */
  lemma AbortCovers(info: Info, own: map<int, int>, gone: set<int>)
    requires Recorded(info) && info.requests.Many? && Covers(info, own) && exists r :: r in Requests(info) && r !in gone
    ensures Recorded(AbortSome(info, gone)) && Covers(AbortSome(info, gone), own - gone)
  {
    AbortRecords(info, gone);
    AbortMembers(info, own, gone);
    forall r | r in Requests(AbortSome(info, gone))
      ensures Shown(AbortSome(info, gone), r) <= (own - gone)[r]
    {
      SurvivingMembers(info.requests.values, gone, r);
      AbortShows(info, gone, r);
    }
  }

  lemma AbortFollows(info: Info, own: map<int, int>, gone: set<int>)
    requires Recorded(info) && info.requests.Many? && Follows(info, own) && exists r :: r in Requests(info) && r !in gone
    requires Aligned(info.versions, |Requests(info)|)
    ensures Recorded(AbortSome(info, gone)) && Follows(AbortSome(info, gone), own - gone)
  {
    AbortCovers(info, own, gone);
    CoversFollows(AbortSome(info, gone), own - gone);
  }

  /** Whatever requests are aborted next, no survivor is older than the version left on record. */
  ghost predicate AbortsTruthfully(info: Info, own: map<int, int>)
    requires Recorded(info) && info.requests.Many? && own.Keys == (set r | r in Requests(info))
  {
    forall gone, r :: r in Requests(info) && r !in gone ==> Version(AbortSome(info, gone)) <= own[r]
  }

  lemma CoveredAborts(info: Info, own: map<int, int>)
    requires Recorded(info) && info.requests.Many? && Covers(info, own)
    ensures AbortsTruthfully(info, own)
  {
    forall gone, r | r in Requests(info) && r !in gone
      ensures Version(AbortSome(info, gone)) <= own[r]
    {
      AbortShows(info, gone, r);
      ShownIsRecorded(AbortSome(info, gone), r);
    }
  }

  /** With all other members gone, the record is what it shows the one that joined. */
  lemma LoneVersion(info: Info, request: int, version: int, inst: int, n: int)
    requires Recorded(info) && request !in Requests(info)
    ensures Recorded(Join(info, request, version, inst, n))
    ensures Version(AbortSome(Join(info, request, version, inst, n), set r | r in Requests(info))) == ShownToNext(info, version)
  {
    var joined := Join(info, request, version, inst, n);
    JoinVersion(info, request, version, inst, n);
    if joined.versions.Many? {
      OnlyLastSurvives(Requests(info), (set r | r in Requests(info)), request, joined.versions.values);
    }
  }

  /**
   The condition on joins is exact: of a covered group, after the join every partial abort leaves a
   truthful record if and only if the record will show the request no newer version than its own.
   */
  lemma JoinCondition(info: Info, own: map<int, int>, request: int, version: int, inst: int, n: int)
    requires Recorded(info) && request !in Requests(info) && Covers(info, own)
    ensures Recorded(Join(info, request, version, inst, n))
    ensures own[request := version].Keys == (set r | r in Requests(Join(info, request, version, inst, n)))
    ensures AbortsTruthfully(Join(info, request, version, inst, n), own[request := version]) <==>
      ShownToNext(info, version) <= version
  {
    var joined, own1 := Join(info, request, version, inst, n), own[request := version];
    JoinCovers(info, own, request, version, inst, n);
    assert Requests(joined) == Requests(info) + [request];
    if ShownToNext(info, version) <= version {
      CoveredAborts(joined, own1);
    } else {
      LoneVersion(info, request, version, inst, n);
      var gone := set r | r in Requests(info);
      assert request in Requests(joined) && request !in gone;
    }
  }
}

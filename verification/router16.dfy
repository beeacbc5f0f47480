/**
  The `/films` router in its final stage: listing, lookup, creation with a
  duplicate check, deletion, partial update and upsert. Each handler is a
  transition from the store before the request to the response and the store
  after it.
 */
module Router16 {
  import opened Wrappers
  import opened Json
  import opened Films
  import Router15

  /** Some film in the store carries id `id`. */
  predicate Stored(s: Store, id: real) {
    exists j :: 0 <= j < |s| && IdOf(s[j]) == Some(id)
  }

  /** `GET /`, with the optional `minimum-duration` query parameter. */
  function List(s: Store, minDuration: QueryParam): (r: Step)
    ensures r.store == s
    ensures minDuration.Absent? ==> r.response == Response(200, Many(s))
    ensures r.response.status == 400 <==>
      minDuration.NotANumber? || (minDuration.Num? && minDuration.value <= 0.0)
    ensures r.response.status == 400 ==> r.response.payload == ReasonPhrase
    ensures minDuration.Num? && minDuration.value > 0.0 ==>
      && r.response.status == 200
      && r.response.payload == Many(FilterMinDuration(s, minDuration.value))
      && forall f :: f in r.response.payload.films <==> f in s && LongEnough(f, minDuration.value)
  {
    match minDuration
    case Absent => Step(Response(200, Many(s)), s)
    case NotANumber => Step(SendStatus(400), s)
    case Num(m) =>
      if m <= 0.0 then Step(SendStatus(400), s)
      else Step(Response(200, Many(FilterMinDuration(s, m))), s)
  }

  /** `GET /:id`, the id read with `parseInt` (`None` for `NaN`). */
  function GetById(s: Store, id: Option<int>): (r: Step)
    ensures r.store == s
    ensures id.None? ==> r.response == SendStatus(400)
    ensures id.Some? && !Stored(s, id.value as real) ==> r.response == SendStatus(404)
    ensures id.Some? && Stored(s, id.value as real) ==>
      exists i: nat :: FirstWithId(s, id.value as real, i) && r.response == Response(200, One(s[i]))
  {
    match id
    case None => Step(SendStatus(400), s)
    case Some(n) =>
      match FindIndex(s, n as real)
      case None => Step(SendStatus(404), s)
      case Some(i) => Step(Response(200, One(s[i])), s)
  }

  /** `POST /`: validate, reject a duplicate title and director, then append under the next id. */
  function Create(s: Store, body: JValue): (r: Step)
    ensures !ValidFilmBody(body) ==> r == Step(SendStatus(400), s)
    ensures ValidFilmBody(body) && HasDuplicate(s, Props(body)) ==> r == Step(SendStatus(409), s)
    ensures ValidFilmBody(body) && !HasDuplicate(s, Props(body)) ==>
      && r.response.status == 200
      && r.response.payload.One?
      && r.store == s + [r.response.payload.film]
      && r.response.payload.film.Keys == Props(body).Keys + {"id"}
      && (forall k :: k in Props(body) ==> r.response.payload.film[k] == Props(body)[k])
      && ("id" !in Props(body) ==> IdOf(r.response.payload.film) == Some(NextId(s)))
  {
    if !ValidFilmBody(body) then Step(SendStatus(400), s)
    else
      var film := Props(body);
      if HasDuplicate(s, film) then Step(SendStatus(409), s)
      else
        var added := NewRecord(NextId(s), film);
        Step(Response(200, One(added)), s + [added])
  }

  /** `DELETE /:id`, the id read with `Number`. */
  function Delete(s: Store, id: Option<real>): (r: Step)
    ensures id.None? ==> r == Step(SendStatus(400), s)
    ensures id.Some? && !Stored(s, id.value) ==> r == Step(SendStatus(404), s)
    ensures id.Some? && Stored(s, id.value) ==>
      exists i :: 0 <= i < |s| && IdOf(s[i]) == Some(id.value)
        && (forall j :: 0 <= j < i ==> IdOf(s[j]) != Some(id.value))
        && r == Step(Response(200, One(s[i])), Remove(s, i))
  {
    match id
    case None => Step(SendStatus(400), s)
    case Some(x) =>
      match FindIndex(s, x)
      case None => Step(SendStatus(404), s)
      case Some(i) => Step(Response(200, One(s[i])), Remove(s, i))
  }

  /**
    `PATCH /:id`: a missing film is answered with 400 like a bad id, then the
    patch is checked and merged over the stored film in place.
   */
  function Patch(s: Store, id: Option<real>, body: JValue): (r: Step)
    ensures r.response.status == 400 || r.response.status == 200
    ensures r.response.status == 400 ==> r == Step(SendStatus(400), s)
    ensures r.response.status == 200 <==>
      id.Some? && Stored(s, id.value) && ValidPatchBody(body)
    ensures r.response.status == 200 ==>
      exists i :: 0 <= i < |s| && IdOf(s[i]) == Some(id.value)
        && (forall j :: 0 <= j < i ==> IdOf(s[j]) != Some(id.value))
        && r.response == Response(200, One(Merge(s[i], Props(body))))
        && r.store == s[i := Merge(s[i], Props(body))]
  {
    match id
    case None => Step(SendStatus(400), s)
    case Some(x) =>
      match FindIndex(s, x)
      case None => Step(SendStatus(400), s)
      case Some(i) =>
        if !ValidPatchBody(body) then Step(SendStatus(400), s)
        else
          var updated := Merge(s[i], Props(body));
          Step(Response(200, One(updated)), s[i := updated])
  }

  /**
    `PUT /:id`: the body is checked as for POST, then the id; a film with that id
    gets the body merged over it in place, otherwise the body is appended under
    the next id (the id in the URL is not used, and no duplicate check is made).
   */
  function Put(s: Store, id: Option<real>, body: JValue): (r: Step)
    ensures !ValidFilmBody(body) || id.None? ==> r == Step(SendStatus(400), s)
    ensures ValidFilmBody(body) && id.Some? && !Stored(s, id.value) ==>
      && r.response.status == 200
      && r.store == s + [NewRecord(NextId(s), Props(body))]
      && r.response.payload == One(NewRecord(NextId(s), Props(body)))
    ensures ValidFilmBody(body) && id.Some? && Stored(s, id.value) ==>
      exists i :: 0 <= i < |s| && IdOf(s[i]) == Some(id.value)
        && (forall j :: 0 <= j < i ==> IdOf(s[j]) != Some(id.value))
        && r.response == Response(200, One(Merge(s[i], Props(body))))
        && r.store == s[i := Merge(s[i], Props(body))]
  {
    if !ValidFilmBody(body) then Step(SendStatus(400), s)
    else
      match id
      case None => Step(SendStatus(400), s)
      case Some(x) =>
        var film := Props(body);
        match FindIndex(s, x)
        case None =>
          var added := NewRecord(NextId(s), film);
          Step(Response(200, One(added)), s + [added])
        case Some(i) =>
          var updated := Merge(s[i], film);
          Step(Response(200, One(updated)), s[i := updated])
  }

  // ---------------------------------------------------------------------------
  // The router as a whole
  // ---------------------------------------------------------------------------

  /** One request to the router, with its parameters already parsed. */
  datatype Request =
    | GetAll(minDuration: QueryParam)
    | GetOne(getId: Option<int>)
    | Post(body: JValue)
    | DeleteOne(id: Option<real>)
    | PatchOne(id: Option<real>, body: JValue)
    | PutOne(id: Option<real>, body: JValue)

  /** Routes a request to its handler. */
  function Handle(s: Store, req: Request): Step {
    match req
    case GetAll(q) => List(s, q)
    case GetOne(n) => GetById(s, n)
    case Post(b) => Create(s, b)
    case DeleteOne(x) => Delete(s, x)
    case PatchOne(x, b) => Patch(s, x, b)
    case PutOne(x, b) => Put(s, x, b)
  }

  /** The store after serving `reqs` one after another, starting from `s`. */
  function Serve(s: Store, reqs: seq<Request>): Store
    decreases |reqs|
  {
    if reqs == [] then s else Serve(Handle(s, reqs[0]).store, reqs[1..])
  }

  /** A request whose body, if it has one, carries no `id` key. */
  predicate NoBodyId(req: Request) {
    (req.Post? || req.PatchOne? || req.PutOne?) ==> "id" !in Props(req.body)
  }

  // ---------------------------------------------------------------------------
  // The store invariant
  // ---------------------------------------------------------------------------

  /** POST keeps ids unique and records valid when the body carries no `id` key. */
  lemma CreateKeepsValid(s: Store, body: JValue)
    requires ValidStore(s) && "id" !in Props(body)
    ensures ValidStore(Create(s, body).store)
  {
    if ValidFilmBody(body) && !HasDuplicate(s, Props(body)) {
      NextIdIsPositiveInt(s);
      NewRecordIsValid(NextId(s), Props(body));
      AppendKeepsValid(s, NewRecord(NextId(s), Props(body)));
    }
  }

  lemma DeleteKeepsValid(s: Store, id: Option<real>)
    requires ValidStore(s)
    ensures ValidStore(Delete(s, id).store)
  {
    if id.Some? && FindIndex(s, id.value).Some? {
      RemoveKeepsValid(s, FindIndex(s, id.value).value);
    }
  }

  /** PATCH keeps the invariant when the patch carries no `id` key. */
  lemma PatchKeepsValid(s: Store, id: Option<real>, body: JValue)
    requires ValidStore(s) && "id" !in Props(body)
    ensures ValidStore(Patch(s, id, body).store)
  {
    if id.Some? && FindIndex(s, id.value).Some? && ValidPatchBody(body) {
      var i := FindIndex(s, id.value).value;
      MergeKeepsValid(s[i], Props(body));
      ReplaceKeepsValid(s, i, Merge(s[i], Props(body)));
    }
  }

  /** PUT keeps the invariant when the body carries no `id` key. */
  lemma PutKeepsValid(s: Store, id: Option<real>, body: JValue)
    requires ValidStore(s) && "id" !in Props(body)
    ensures ValidStore(Put(s, id, body).store)
  {
    if ValidFilmBody(body) && id.Some? {
      match FindIndex(s, id.value)
      case None =>
        NextIdIsPositiveInt(s);
        NewRecordIsValid(NextId(s), Props(body));
        AppendKeepsValid(s, NewRecord(NextId(s), Props(body)));
      case Some(i) =>
        MergeKeepsValid(s[i], Props(body));
        ReplaceKeepsValid(s, i, Merge(s[i], Props(body)));
    }
  }

  /** Every request without a body `id` key keeps the store invariant. */
  lemma HandleKeepsValid(s: Store, req: Request)
    requires ValidStore(s) && NoBodyId(req)
    ensures ValidStore(Handle(s, req).store)
  {
    match req
    case GetAll(q) =>
    case GetOne(n) =>
    case Post(b) => CreateKeepsValid(s, b);
    case DeleteOne(x) => DeleteKeepsValid(s, x);
    case PatchOne(x, b) => PatchKeepsValid(s, x, b);
    case PutOne(x, b) => PutKeepsValid(s, x, b);
  }

  /**
    Starting from the seed list, any sequence of requests whose bodies carry no
    `id` key leaves a store of valid records with unique ids.
   */
  lemma {:induction false} ServeKeepsValid(s: Store, reqs: seq<Request>)
    requires ValidStore(s)
    requires forall k :: 0 <= k < |reqs| ==> NoBodyId(reqs[k])
    ensures ValidStore(Serve(s, reqs))
    decreases |reqs|
  {
    if reqs != [] {
      HandleKeepsValid(s, reqs[0]);
      ServeKeepsValid(Handle(s, reqs[0]).store, reqs[1..]);
    }
  }

  // ---------------------------------------------------------------------------
  // Relations between handlers
  // ---------------------------------------------------------------------------

  /** A film created by POST is what `GET /:id` then returns under its new id. */
  lemma CreateThenGet(s: Store, body: JValue)
    requires ValidStore(s) && "id" !in Props(body)
    requires ValidFilmBody(body) && !HasDuplicate(s, Props(body))
    ensures var after := Create(s, body);
      GetById(after.store, Some(NextId(s).Floor)).response == after.response
  {
    var after := Create(s, body);
    var added := NewRecord(NextId(s), Props(body));
    NextIdIsPositiveInt(s);
    CreateKeepsValid(s, body);
    assert after.store[|s|] == added;
    FindIndexUnique(after.store, |s|, NextId(s));
  }

  /** After a successful DELETE no film has that id: `GET /:id` answers 404. */
  lemma DeleteThenGet(s: Store, x: real)
    requires ValidStore(s) && Stored(s, x)
    ensures GetById(Delete(s, Some(x)).store, Some(x.Floor)).response == SendStatus(404)
  {
    var i := FindIndex(s, x).value;
    assert ValidRecord(s[i]);
    assert x.Floor as real == x;
    RemoveLeavesNoMatch(s, i);
  }

  /** A PATCH without an `id` key leaves the film's id, its position and every other film alone. */
  lemma PatchKeepsIdAndPlace(s: Store, x: real, body: JValue)
    requires "id" !in Props(body)
    requires Patch(s, Some(x), body).response.status == 200
    ensures var after := Patch(s, Some(x), body).store;
      && |after| == |s|
      && exists i :: 0 <= i < |s| && IdOf(after[i]) == Some(x)
           && (forall j :: 0 <= j < |s| && j != i ==> after[j] == s[j])
           && (forall k :: k in s[i] && k !in Props(body) ==> after[i][k] == s[i][k])
  {
    var i := FindIndex(s, x).value;
    var after := Patch(s, Some(x), body).store;
    assert after == s[i := Merge(s[i], Props(body))];
    assert IdOf(after[i]) == Some(x);
  }

  /** PUT on an unknown id creates under the next id whatever the URL said. */
  lemma PutCreateIgnoresUrlId(s: Store, x: real, y: real, body: JValue)
    requires ValidFilmBody(body) && !Stored(s, x) && !Stored(s, y)
    ensures Put(s, Some(x), body) == Put(s, Some(y), body)
    ensures "id" !in Props(body) ==>
      IdOf(Put(s, Some(x), body).response.payload.film) == Some(NextId(s))
  {
  }

  /** An optional field the PUT body leaves out keeps its stored value. */
  lemma PutKeepsOmittedFields(s: Store, x: real, body: JValue, key: string)
    requires ValidFilmBody(body) && Stored(s, x)
    requires key !in Props(body)
    ensures var i := FindIndex(s, x).value;
      key in s[i] ==> Put(s, Some(x), body).store[i][key] == s[i][key]
  {
  }

  /** The first three handlers are those of the previous stage unchanged. */
  lemma SameAsRouter15(s: Store, q: QueryParam, n: Option<int>, body: JValue)
    ensures List(s, q) == Router15.List(s, q)
    ensures GetById(s, n) == Router15.GetById(s, n)
    ensures Create(s, body) == Router15.Create(s, body)
  {
  }
}

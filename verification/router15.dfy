/**
  The `/films` router at the stage that adds status codes: listing, lookup and
  creation, with 400 for an invalid body and 409 for a duplicate title and
  director. Creation is the only handler that changes the store.
 */
module Router15 {
  import opened Wrappers
  import opened Json
  import opened Films

  /** `GET /`, with the optional `minimum-duration` query parameter. */
  function List(s: Store, minDuration: QueryParam): (r: Step)
    ensures r.store == s
    ensures minDuration.Absent? ==> r.response == Response(200, Many(s))
    ensures r.response.status == 400 <==>
      minDuration.NotANumber? || (minDuration.Num? && minDuration.value <= 0.0)
    ensures r.response.status == 400 ==> r.response.payload == ReasonPhrase
    ensures minDuration.Num? && minDuration.value > 0.0 ==>
      && r.response.status == 200
      && r.response.payload == Many(FilterMinDuration(s, minDuration.value))
      && forall f :: f in r.response.payload.films <==> f in s && LongEnough(f, minDuration.value)
  {
    match minDuration
    case Absent => Step(Response(200, Many(s)), s)
    case NotANumber => Step(SendStatus(400), s)
    case Num(m) =>
      if m <= 0.0 then Step(SendStatus(400), s)
      else Step(Response(200, Many(FilterMinDuration(s, m))), s)
  }

  /** `GET /:id`, the id read with `parseInt` (`None` for `NaN`). */
  function GetById(s: Store, id: Option<int>): (r: Step)
    ensures r.store == s
    ensures id.None? ==> r.response == SendStatus(400)
    ensures id.Some? && (forall j :: 0 <= j < |s| ==> IdOf(s[j]) != Some(id.value as real)) ==>
      r.response == SendStatus(404)
    ensures id.Some? && (exists j :: 0 <= j < |s| && IdOf(s[j]) == Some(id.value as real)) ==>
      exists i: nat :: FirstWithId(s, id.value as real, i) && r.response == Response(200, One(s[i]))
  {
    match id
    case None => Step(SendStatus(400), s)
    case Some(n) =>
      match FindIndex(s, n as real)
      case None => Step(SendStatus(404), s)
      case Some(i) => Step(Response(200, One(s[i])), s)
  }

  /** `POST /`: validate, reject a duplicate title and director, then append under the next id. */
  function Create(s: Store, body: JValue): (r: Step)
    ensures !ValidFilmBody(body) ==> r == Step(SendStatus(400), s)
    ensures ValidFilmBody(body) && HasDuplicate(s, Props(body)) ==> r == Step(SendStatus(409), s)
    ensures ValidFilmBody(body) && !HasDuplicate(s, Props(body)) ==>
      && r.response.status == 200
      && r.response.payload.One?
      && r.store == s + [r.response.payload.film]
      && r.response.payload.film.Keys == Props(body).Keys + {"id"}
      && (forall k :: k in Props(body) ==> r.response.payload.film[k] == Props(body)[k])
      && ("id" !in Props(body) ==> IdOf(r.response.payload.film) == Some(NextId(s)))
  {
    if !ValidFilmBody(body) then Step(SendStatus(400), s)
    else
      var film := Props(body);
      if HasDuplicate(s, film) then Step(SendStatus(409), s)
      else
        var added := NewRecord(NextId(s), film);
        Step(Response(200, One(added)), s + [added])
  }

  /** A request to this stage of the router. */
  datatype Request =
    | GetAll(minDuration: QueryParam)
    | GetOne(id: Option<int>)
    | Post(body: JValue)

  function Handle(s: Store, req: Request): Step {
    match req
    case GetAll(q) => List(s, q)
    case GetOne(n) => GetById(s, n)
    case Post(b) => Create(s, b)
  }

  /**
    The only change a request can make is to append one film: the store after it
    is the store before it, possibly followed by one record.
   */
  lemma OnlyAppends(s: Store, req: Request)
    ensures var t := Handle(s, req).store;
      t == s || (|t| == |s| + 1 && t[..|s|] == s)
    ensures !req.Post? ==> Handle(s, req).store == s
  {
    var t := Handle(s, req).store;
    if t != s {
      assert t[..|s|] == s;
    }
  }

  /** POST keeps ids unique and records valid when the body carries no `id` key. */
  lemma CreateKeepsValid(s: Store, body: JValue)
    requires ValidStore(s) && "id" !in Props(body)
    ensures ValidStore(Create(s, body).store)
  {
    if ValidFilmBody(body) && !HasDuplicate(s, Props(body)) {
      NextIdIsPositiveInt(s);
      NewRecordIsValid(NextId(s), Props(body));
      AppendKeepsValid(s, NewRecord(NextId(s), Props(body)));
    }
  }

  /** The assigned id is larger than every id already stored, so it is fresh. */
  lemma CreatedIdIsFresh(s: Store, body: JValue)
    requires "id" !in Props(body) && Create(s, body).response.status == 200
    ensures var film := Create(s, body).response.payload.film;
      && IdOf(film).Some?
      && forall i :: 0 <= i < |s| && IdOf(s[i]).Some? ==> IdOf(s[i]).value < IdOf(film).value
  {
  }
}

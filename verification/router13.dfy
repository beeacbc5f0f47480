/**
  The `/films` router at its first stage: listing, lookup and creation. An
  invalid body is answered with a message and no error status, and creation
  makes no duplicate check.
 */
module Router13 {
  import opened Wrappers
  import opened Json
  import opened Films

  /** `GET /`, with the optional `minimum-duration` query parameter. */
  function List(s: Store, minDuration: QueryParam): (r: Step)
    ensures r.store == s
    ensures minDuration.Absent? ==> r.response == Response(200, Many(s))
    ensures r.response.status == 400 <==>
      minDuration.NotANumber? || (minDuration.Num? && minDuration.value <= 0.0)
    ensures r.response.status == 400 ==> r.response.payload == Message("Wrong minimum duration")
    ensures minDuration.Num? && minDuration.value > 0.0 ==>
      && r.response.status == 200
      && r.response.payload == Many(FilterMinDuration(s, minDuration.value))
      && forall f :: f in r.response.payload.films <==> f in s && LongEnough(f, minDuration.value)
  {
    match minDuration
    case Absent => Step(Response(200, Many(s)), s)
    case NotANumber => Step(Response(400, Message("Wrong minimum duration")), s)
    case Num(m) =>
      if m <= 0.0 then Step(Response(400, Message("Wrong minimum duration")), s)
      else Step(Response(200, Many(FilterMinDuration(s, m))), s)
  }

  /** `GET /:id`, the id read with `parseInt` (`None` for `NaN`); a miss sends 404 with an empty body. */
  function GetById(s: Store, id: Option<int>): (r: Step)
    ensures r.store == s
    ensures id.None? ==> r.response == Response(400, Message("id is not a number"))
    ensures id.Some? && (forall j :: 0 <= j < |s| ==> IdOf(s[j]) != Some(id.value as real)) ==>
      r.response == Response(404, Empty)
    ensures id.Some? && (exists j :: 0 <= j < |s| && IdOf(s[j]) == Some(id.value as real)) ==>
      exists i: nat :: FirstWithId(s, id.value as real, i) && r.response == Response(200, One(s[i]))
  {
    match id
    case None => Step(Response(400, Message("id is not a number")), s)
    case Some(n) =>
      match FindIndex(s, n as real)
      case None => Step(Response(404, Empty), s)
      case Some(i) => Step(Response(200, One(s[i])), s)
  }

  /**
    `POST /`: an invalid body gets the message "Wrong film format" with the
    default status 200; a valid one is appended under the next id even when it
    repeats a stored title and director.
   */
  function Create(s: Store, body: JValue): (r: Step)
    ensures r.response.status == 200
    ensures !ValidFilmBody(body) ==> r == Step(Response(200, Message("Wrong film format")), s)
    ensures ValidFilmBody(body) ==>
      && r.response.payload.One?
      && r.store == s + [r.response.payload.film]
      && r.response.payload.film.Keys == Props(body).Keys + {"id"}
      && (forall k :: k in Props(body) ==> r.response.payload.film[k] == Props(body)[k])
      && ("id" !in Props(body) ==> IdOf(r.response.payload.film) == Some(NextId(s)))
  {
    if !ValidFilmBody(body) then Step(Response(200, Message("Wrong film format")), s)
    else
      var added := NewRecord(NextId(s), Props(body));
      Step(Response(200, One(added)), s + [added])
  }

  /** A valid body that repeats a stored title and director is still appended. */
  lemma DuplicateIsAppended(s: Store, body: JValue)
    requires ValidFilmBody(body) && HasDuplicate(s, Props(body))
    ensures |Create(s, body).store| == |s| + 1
    ensures Create(s, body).store[..|s|] == s
  {
    assert Create(s, body).store[..|s|] == s;
  }

  /** POST keeps the invariant when the body carries no `id` key, duplicates or not. */
  lemma CreateKeepsValid(s: Store, body: JValue)
    requires ValidStore(s) && "id" !in Props(body)
    ensures ValidStore(Create(s, body).store)
  {
    if ValidFilmBody(body) {
      NextIdIsPositiveInt(s);
      NewRecordIsValid(NextId(s), Props(body));
      AppendKeepsValid(s, NewRecord(NextId(s), Props(body)));
    }
  }
}

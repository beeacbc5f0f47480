/**
  The film store shared by every stage of the `/films` router: the stored records,
  the request-body validators, the searches the handlers run over the store, the
  id counter and the response shapes.

  A stored film is the JavaScript object itself, a `Record`, because the handlers
  build records with object spread (`{ id: nextId, ...body }`, `{ ...old, ...body }`)
  and so keep every key of the body, unknown keys and an `id` key included. The
  `Film` datatype is the declared TypeScript shape; `Decode` reads a record as one.
 */
module Films {
  import opened Wrappers
  import opened Json

  type Record = JsObject

  /** The module-level `films` array, in storage order. */
  type Store = seq<Record>

  /** The declared shape of a film. */
  datatype Film = Film(
    id: int,
    title: string,
    director: string,
    duration: real,
    budget: Option<real>,
    description: Option<string>,
    imageUrl: Option<string>)

  /** The keys the declared shape names. */
  const FilmKeys: set<string> :=
    {"id", "title", "director", "duration", "budget", "description", "imageUrl"}

  // ---------------------------------------------------------------------------
  // Request bodies
  // ---------------------------------------------------------------------------

  /** `"key" in p && (typeof p.key !== "string" || !p.key.trim())` is false. */
  predicate TextFieldOk(p: JsObject, key: string) {
    key in p ==> p[key].JStr? && NonBlank(p[key].s)
  }

  /** `"key" in p && (typeof p.key !== "number" || p.key <= 0)` is false. */
  predicate PositiveFieldOk(p: JsObject, key: string) {
    key in p ==> p[key].JNum? && p[key].n > 0.0
  }

  /** Every known key that is present has the type and value its rule asks for; other keys are not looked at. */
  predicate KnownFieldsOk(p: JsObject) {
    && TextFieldOk(p, "title")
    && TextFieldOk(p, "director")
    && PositiveFieldOk(p, "duration")
    && PositiveFieldOk(p, "budget")
    && TextFieldOk(p, "description")
    && TextFieldOk(p, "imageUrl")
  }

  /** The full-body check of POST and PUT: the three required keys present, every known key well formed. */
  predicate ValidNewFilm(p: JsObject) {
    "title" in p && "director" in p && "duration" in p && KnownFieldsOk(p)
  }

  /** The PATCH check: at least one key, every known key present well formed. */
  predicate ValidPatch(p: JsObject) {
    p != map[] && KnownFieldsOk(p)
  }

  predicate ValidFilmBody(body: JValue) {
    AsObject(body).Some? && ValidNewFilm(AsObject(body).value)
  }

  predicate ValidPatchBody(body: JValue) {
    AsObject(body).Some? && ValidPatch(AsObject(body).value)
  }

  /** The body's properties; the empty object for a body that is not an object. */
  function Props(body: JValue): JsObject {
    match AsObject(body)
    case Some(p) => p
    case None => map[]
  }

  /**
    The full-body check field by field, as a list of conditions: a JSON object whose
    `title` and `director` are non-blank strings and `duration` a positive number,
    whose `budget`, if present, is a positive number and whose `description` and
    `imageUrl`, if present, are non-blank strings. No array and no scalar passes.
   */
  lemma ValidFilmBodyIff(body: JValue)
    ensures ValidFilmBody(body) <==>
      && body.JObj?
      && "title" in body.fields && body.fields["title"].JStr? && NonBlank(body.fields["title"].s)
      && "director" in body.fields && body.fields["director"].JStr? && NonBlank(body.fields["director"].s)
      && "duration" in body.fields && body.fields["duration"].JNum? && body.fields["duration"].n > 0.0
      && ("budget" in body.fields ==> body.fields["budget"].JNum? && body.fields["budget"].n > 0.0)
      && ("description" in body.fields ==>
            body.fields["description"].JStr? && NonBlank(body.fields["description"].s))
      && ("imageUrl" in body.fields ==>
            body.fields["imageUrl"].JStr? && NonBlank(body.fields["imageUrl"].s))
  {
    if body.JArr? {
      NamedKeyNotInArray(body.items, "title");
    }
  }

  /**
    A non-empty array passes the PATCH check: `Object.keys` counts its indices and
    none of them is a known key.
   */
  lemma ArrayIsValidPatch(xs: seq<JValue>)
    requires xs != []
    ensures ValidPatchBody(JArr(xs))
  {
    var p := ArrayProperties(xs);
    NamedKeyNotInArray(xs, "title");
    NamedKeyNotInArray(xs, "director");
    NamedKeyNotInArray(xs, "duration");
    NamedKeyNotInArray(xs, "budget");
    NamedKeyNotInArray(xs, "description");
    NamedKeyNotInArray(xs, "imageUrl");
  }

  /** Every body POST accepts would also pass as a patch. */
  lemma ValidNewFilmIsValidPatch(p: JsObject)
    requires ValidNewFilm(p)
    ensures ValidPatch(p)
  {
    assert "title" in p;
  }

  // ---------------------------------------------------------------------------
  // Stored records
  // ---------------------------------------------------------------------------

  /** `film.id` when it is a number. */
  function IdOf(r: Record): Option<real> {
    if "id" in r && r["id"].JNum? then Some(r["id"].n) else None
  }

  /** The string stored under `key`, if it is one. */
  function TextOf(r: JsObject, key: string): Option<string> {
    if key in r && r[key].JStr? then Some(r[key].s) else None
  }

  predicate IsPositiveInt(x: real) {
    x >= 1.0 && x.Floor as real == x
  }

  /** A record the store can hold: a valid film body carrying a positive integer id. */
  predicate ValidRecord(r: Record) {
    ValidNewFilm(r) && IdOf(r).Some? && IsPositiveInt(IdOf(r).value)
  }

  predicate UniqueIds(s: Store) {
    forall i, j :: 0 <= i < j < |s| ==> IdOf(s[i]) != IdOf(s[j])
  }

  /** The store invariant: every record valid, no two with the same id. */
  predicate ValidStore(s: Store) {
    (forall i :: 0 <= i < |s| ==> ValidRecord(s[i])) && UniqueIds(s)
  }

  /** The declared field rules on a typed film. */
  predicate FilmOk(f: Film) {
    && f.id >= 1
    && NonBlank(f.title)
    && NonBlank(f.director)
    && f.duration > 0.0
    && (f.budget.Some? ==> f.budget.value > 0.0)
    && (f.description.Some? ==> NonBlank(f.description.value))
    && (f.imageUrl.Some? ==> NonBlank(f.imageUrl.value))
  }

  function OptionalNumber(key: string, v: Option<real>): JsObject {
    if v.Some? then map[key := JNum(v.value)] else map[]
  }

  function OptionalText(key: string, v: Option<string>): JsObject {
    if v.Some? then map[key := JStr(v.value)] else map[]
  }

  /** The object literal for a typed film; optional fields that are absent get no key. */
  function Encode(f: Film): (r: Record)
    ensures r.Keys <= FilmKeys
    ensures IdOf(r) == Some(f.id as real)
    ensures FilmOk(f) ==> ValidRecord(r)
  {
    map["id" := JNum(f.id as real), "title" := JStr(f.title),
        "director" := JStr(f.director), "duration" := JNum(f.duration)]
    + OptionalNumber("budget", f.budget)
    + OptionalText("description", f.description)
    + OptionalText("imageUrl", f.imageUrl)
  }

  /** Reads a record as the declared shape; defined exactly on the records the store can hold. */
  function Decode(r: Record): (f: Option<Film>)
    ensures f.Some? <==> ValidRecord(r)
    ensures f.Some? ==> FilmOk(f.value) && IdOf(r) == Some(f.value.id as real)
  {
    if !ValidRecord(r) then None
    else
      Some(Film(
        r["id"].n.Floor,
        r["title"].s,
        r["director"].s,
        r["duration"].n,
        if "budget" in r then Some(r["budget"].n) else None,
        TextOf(r, "description"),
        TextOf(r, "imageUrl")))
  }

  /** Every well-formed film survives writing it as an object and reading it back. */
  lemma DecodeEncode(f: Film)
    requires FilmOk(f)
    ensures Decode(Encode(f)) == Some(f)
  {
    var r := Encode(f);
    assert r["id"].n.Floor == f.id;
  }

  /** A valid record with only declared keys is exactly the object literal of what it decodes to. */
  lemma EncodeDecode(r: Record)
    requires ValidRecord(r) && r.Keys <= FilmKeys
    ensures Encode(Decode(r).value) == r
  {
    var e := Encode(Decode(r).value);
    assert e.Keys == r.Keys;
    forall k | k in r
      ensures e[k] == r[k]
    {
    }
  }

  // ---------------------------------------------------------------------------
  // Searches over the store
  // ---------------------------------------------------------------------------

  /** `films.findIndex((film) => film.id === id)` started at `from`. */
  function FindIndexFrom(s: Store, id: real, from: nat): (k: Option<nat>)
    requires from <= |s|
    ensures k.Some? ==>
      && from <= k.value < |s|
      && IdOf(s[k.value]) == Some(id)
      && forall j :: from <= j < k.value ==> IdOf(s[j]) != Some(id)
    ensures k.None? ==> forall j :: from <= j < |s| ==> IdOf(s[j]) != Some(id)
    decreases |s| - from
  {
    if from == |s| then None
    else if IdOf(s[from]) == Some(id) then Some(from)
    else FindIndexFrom(s, id, from + 1)
  }

  /**
    The index of the first film whose id is `id`, as `findIndex` (and `find`,
    `indexOf` of what `find` returned) locate it; `None` for `-1`.
   */
  function FindIndex(s: Store, id: real): (k: Option<nat>)
    ensures k.Some? ==>
      && k.value < |s|
      && IdOf(s[k.value]) == Some(id)
      && forall j :: 0 <= j < k.value ==> IdOf(s[j]) != Some(id)
    ensures k.None? <==> forall j :: 0 <= j < |s| ==> IdOf(s[j]) != Some(id)
  {
    FindIndexFrom(s, id, 0)
  }

  /** `s[i]` is the film `find` returns for `id`: it has that id and no earlier film does. */
  predicate FirstWithId(s: Store, id: real, i: nat) {
    && i < |s|
    && IdOf(s[i]) == Some(id)
    && forall j :: 0 <= j < i ==> IdOf(s[j]) != Some(id)
  }

  /** With unique ids the first match is the only one. */
  lemma FindIndexUnique(s: Store, i: nat, id: real)
    requires UniqueIds(s) && i < |s| && IdOf(s[i]) == Some(id)
    ensures FindIndex(s, id) == Some(i)
  {
  }

  /** `film.duration >= minDuration`, for a numeric duration. */
  predicate LongEnough(r: Record, minDuration: real) {
    "duration" in r && r["duration"].JNum? && r["duration"].n >= minDuration
  }

  /** `films.filter((film) => film.duration >= minDuration)`. */
  function FilterMinDuration(s: Store, minDuration: real): (out: Store)
    ensures |out| <= |s|
    ensures forall r :: r in out <==> r in s && LongEnough(r, minDuration)
  {
    if s == [] then []
    else
      (if LongEnough(s[0], minDuration) then [s[0]] else [])
      + FilterMinDuration(s[1..], minDuration)
  }

  /** The filter keeps a single film exactly when it is long enough. */
  lemma FilterOne(r: Record, minDuration: real)
    ensures FilterMinDuration([r], minDuration) == if LongEnough(r, minDuration) then [r] else []
  {
    assert [r][1..] == [];
  }

  /**
    The filter is order preserving: filtering a concatenation concatenates the
    filtered parts. With `FilterOne` this determines the result film by film, in
    storage order.
   */
  lemma {:induction false} FilterConcat(a: Store, b: Store, minDuration: real)
    ensures FilterMinDuration(a + b, minDuration)
      == FilterMinDuration(a, minDuration) + FilterMinDuration(b, minDuration)
    decreases |a|
  {
    if a == [] {
      assert a + b == b;
    } else {
      var head := if LongEnough(a[0], minDuration) then [a[0]] else [];
      assert (a + b)[0] == a[0];
      assert (a + b)[1..] == a[1..] + b;
      FilterConcat(a[1..], b, minDuration);
      calc {
        FilterMinDuration(a + b, minDuration);
        head + FilterMinDuration(a[1..] + b, minDuration);
        head + (FilterMinDuration(a[1..], minDuration) + FilterMinDuration(b, minDuration));
        (head + FilterMinDuration(a[1..], minDuration)) + FilterMinDuration(b, minDuration);
        FilterMinDuration(a, minDuration) + FilterMinDuration(b, minDuration);
      }
    }
  }

  /** A minimum that every film of the store reaches keeps the whole store, in order. */
  lemma {:induction false} FilterKeepsAll(s: Store, minDuration: real)
    requires forall i :: 0 <= i < |s| ==> LongEnough(s[i], minDuration)
    ensures FilterMinDuration(s, minDuration) == s
    decreases |s|
  {
    if s != [] {
      FilterKeepsAll(s[1..], minDuration);
      assert [s[0]] + s[1..] == s;
    }
  }

  /** `reduce((acc, film) => (film.id > acc ? film.id : acc), acc)`; a film without a numeric id leaves `acc`. */
  function MaxIdFrom(s: Store, acc: real): (m: real)
    ensures m >= acc
    ensures forall i :: 0 <= i < |s| && IdOf(s[i]).Some? ==> IdOf(s[i]).value <= m
    ensures m == acc || exists i :: 0 <= i < |s| && IdOf(s[i]) == Some(m)
    decreases |s|
  {
    if s == [] then acc
    else
      var acc' := if IdOf(s[0]).Some? && IdOf(s[0]).value > acc then IdOf(s[0]).value else acc;
      var m := MaxIdFrom(s[1..], acc');
      assert forall i :: 1 <= i < |s| ==> s[1..][i - 1] == s[i];
      m
  }

  /** `films.reduce(..., 0) + 1`: one more than the largest id, or 1 for an empty store. */
  function NextId(s: Store): (n: real)
    ensures n >= 1.0
    ensures forall i :: 0 <= i < |s| && IdOf(s[i]).Some? ==> IdOf(s[i]).value < n
  {
    MaxIdFrom(s, 0.0) + 1.0
  }

  /** On a store of valid records the next id is a positive integer again. */
  lemma NextIdIsPositiveInt(s: Store)
    requires forall i :: 0 <= i < |s| ==> ValidRecord(s[i])
    ensures IsPositiveInt(NextId(s))
  {
    var m := MaxIdFrom(s, 0.0);
    if m != 0.0 {
      var i :| 0 <= i < |s| && IdOf(s[i]) == Some(m);
      assert ValidRecord(s[i]);
    }
    assert (m + 1.0).Floor == m.Floor + 1;
  }

  /** Folding over films numbered `acc + 1, acc + 2, ...` in order ends at the last number. */
  lemma {:induction false} MaxIdOfNumbered(s: Store, acc: real)
    requires forall i :: 0 <= i < |s| ==> IdOf(s[i]) == Some(acc + (i + 1) as real)
    ensures MaxIdFrom(s, acc) == acc + |s| as real
    decreases |s|
  {
    if s != [] {
      assert IdOf(s[0]) == Some(acc + 1.0);
      forall i | 0 <= i < |s[1..]|
        ensures IdOf(s[1..][i]) == Some((acc + 1.0) + (i + 1) as real)
      {
        assert s[1..][i] == s[i + 1];
      }
      MaxIdOfNumbered(s[1..], acc + 1.0);
    }
  }

  /** On a store holding ids `1..n` in order the next id is `n + 1`. */
  lemma NextIdOfNumbered(s: Store)
    requires forall i :: 0 <= i < |s| ==> IdOf(s[i]) == Some((i + 1) as real)
    ensures NextId(s) == |s| as real + 1.0
  {
    assert forall i :: 0 <= i < |s| ==> IdOf(s[i]) == Some(0.0 + (i + 1) as real);
    MaxIdOfNumbered(s, 0.0);
  }

  /** `{ id: nextId, ...body }`: the body's keys, an `id` key among them, win over the assigned id. */
  function NewRecord(id: real, body: JsObject): (r: Record)
    ensures r.Keys == body.Keys + {"id"}
    ensures forall k :: k in body ==> r[k] == body[k]
    ensures "id" !in body ==> IdOf(r) == Some(id)
  {
    map["id" := JNum(id)] + body
  }

  /** `{ ...old, ...body }`: the body's keys overwrite, every other key keeps its base value. */
  function Merge(base: Record, body: JsObject): (r: Record)
    ensures r.Keys == base.Keys + body.Keys
    ensures forall k :: k in body ==> r[k] == body[k]
    ensures forall k :: k in base && k !in body ==> r[k] == base[k]
  {
    base + body
  }

  /** A well-formed patch without an `id` key keeps a record valid and keeps its id. */
  lemma MergeKeepsValid(base: Record, body: JsObject)
    requires ValidRecord(base) && KnownFieldsOk(body) && "id" !in body
    ensures ValidRecord(Merge(base, body))
    ensures IdOf(Merge(base, body)) == IdOf(base)
  {
  }

  /** A valid body without an `id` key, stored under a fresh positive integer id, is a valid record. */
  lemma NewRecordIsValid(id: real, body: JsObject)
    requires ValidNewFilm(body) && "id" !in body && IsPositiveInt(id)
    ensures ValidRecord(NewRecord(id, body))
  {
  }

  // ---------------------------------------------------------------------------
  // The invariant across the three kinds of mutation
  // ---------------------------------------------------------------------------

  /** `films.push(r)` keeps the invariant when `r` is valid and its id is fresh. */
  lemma AppendKeepsValid(s: Store, r: Record)
    requires ValidStore(s) && ValidRecord(r)
    requires forall i :: 0 <= i < |s| ==> IdOf(s[i]) != IdOf(r)
    ensures ValidStore(s + [r])
  {
  }

  /** `films[i] = r` keeps the invariant when `r` is valid and keeps the id of what it replaces. */
  lemma ReplaceKeepsValid(s: Store, i: nat, r: Record)
    requires ValidStore(s) && i < |s| && ValidRecord(r) && IdOf(r) == IdOf(s[i])
    ensures ValidStore(s[i := r])
  {
    var t := s[i := r];
    forall a, b | 0 <= a < b < |t|
      ensures IdOf(t[a]) != IdOf(t[b])
    {
      assert IdOf(t[a]) == IdOf(s[a]) && IdOf(t[b]) == IdOf(s[b]);
    }
  }

  /** `films.splice(i, 1)`: the film at `i` is gone, the others keep their relative order. */
  function Remove(s: Store, i: nat): (t: Store)
    requires i < |s|
    ensures |t| == |s| - 1
    ensures forall j :: 0 <= j < i ==> t[j] == s[j]
    ensures forall j :: i <= j < |t| ==> t[j] == s[j + 1]
  {
    s[..i] + s[i + 1..]
  }

  /** `films.splice(i, 1)` keeps the invariant. */
  lemma RemoveKeepsValid(s: Store, i: nat)
    requires ValidStore(s) && i < |s|
    ensures ValidStore(Remove(s, i))
  {
    var t := Remove(s, i);
    assert forall a :: 0 <= a < |t| ==> t[a] == s[if a < i then a else a + 1];
  }

  /** After removing the only film with a given id, no film has that id. */
  lemma RemoveLeavesNoMatch(s: Store, i: nat)
    requires UniqueIds(s) && i < |s| && IdOf(s[i]).Some?
    ensures forall j :: 0 <= j < |s| - 1 ==> IdOf(Remove(s, i)[j]) != IdOf(s[i])
  {
  }

  // ---------------------------------------------------------------------------
  // Requests and responses
  // ---------------------------------------------------------------------------

  /** `Number(req.query["minimum-duration"])`: absent, not a number, or a number. */
  datatype QueryParam = Absent | NotANumber | Num(value: real)

  /** What a handler writes into the response body. */
  datatype Payload =
    | Empty                      // `res.send(undefined)`
    | ReasonPhrase               // `res.sendStatus(code)` writes the standard phrase of the code
    | Message(text: string)      // `res.json("...")`
    | One(film: Record)          // a single film
    | Many(films: seq<Record>)   // a list of films

  datatype Response = Response(status: int, payload: Payload)

  /** A handler's effect: the response it sends and the store it leaves. */
  datatype Step = Step(response: Response, store: Store)

  function SendStatus(code: int): Response {
    Response(code, ReasonPhrase)
  }

  /** A stored film whose title and director match the body's, both ignoring case. */
  predicate SameTitleAndDirector(r: Record, body: JsObject) {
    && TextOf(r, "title").Some? && TextOf(body, "title").Some?
    && SameIgnoringCase(TextOf(r, "title").value, TextOf(body, "title").value)
    && TextOf(r, "director").Some? && TextOf(body, "director").Some?
    && SameIgnoringCase(TextOf(r, "director").value, TextOf(body, "director").value)
  }

  /** `films.find(...)` with the duplicate test finds something. */
  predicate HasDuplicate(s: Store, body: JsObject) {
    exists i :: 0 <= i < |s| && SameTitleAndDirector(s[i], body)
  }

  // ---------------------------------------------------------------------------
  // The seed list
  // ---------------------------------------------------------------------------

  /** The five films every stage of the router starts with, in the declared shape. */
  const SeedFilms: seq<Film> := [
    Film(1, "Shang-Chi and the Legend of the Ten Rings", "Destin Daniel Cretton", 132.0,
      Some(150.0),
      Some("Shang-Chi, the master of "
        + "unarmed weaponry-based Kung Fu, is forced to confront his past after being drawn into the Ten Rings organization."),
      Some("https://upload.wikimedia.org/"
        + "wikipedia/en/7/74/Shang-Chi_and_the_Legend_of_the_Ten_Rings_poster.jpeg")),
    Film(2, "The Matrix", "Lana Wachowski, Lilly Wachowski", 136.0,
      Some(63.0),
      Some("A computer hacker learns from "
        + "mysterious rebels about the true nature of his reality and his role in the war against its controllers."),
      Some("https://upload.wikimedia.org/"
        + "wikipedia/en/c/c1/The_Matrix_Poster.jpg")),
    Film(3, "Summer Wars", "Mamoru Hosoda", 114.0,
      Some(18.7),
      Some("A young math genius solves a "
        + "complex equation and inadvertently puts a virtual world's artificial intelligence in a position to destroy Earth."),
      Some("https://upload.wikimedia.org/"
        + "wikipedia/en/7/7d/Summer_Wars_poster.jpg")),
    Film(4, "The Meyerowitz Stories", "Noah Baumbach", 112.0,
      None,
      Some("An estranged family gathers "
        + "together in New York City for an event celebrating the artistic work of their father."),
      Some("https://upload.wikimedia.org/"
        + "wikipedia/en/a/af/The_Meyerowitz_Stories.png")),
    Film(5, "her", "Spike Jonze", 126.0,
      Some(23.0),
      Some("In a near future, a lonely "
        + "writer develops an unlikely relationship with an operating system designed to meet his every need."),
      Some("https://upload.wikimedia.org/"
        + "wikipedia/en/4/44/Her2013Poster.jpg"))
  ]

  /** The seed list as the objects the store holds. */
  function Seed(): (s: Store)
    ensures |s| == |SeedFilms|
    ensures forall i :: 0 <= i < |s| ==> s[i] == Encode(SeedFilms[i])
  {
    seq(|SeedFilms|, i requires 0 <= i < |SeedFilms| => Encode(SeedFilms[i]))
  }

  lemma NonBlankByFirst(s: string)
    requires |s| > 0 && !IsJsWhitespace(s[0])
    ensures NonBlank(s)
  {
  }

  /** Every seed film obeys the declared field rules, and the ids run 1 to 5. */
  lemma SeedFilmsOk()
    ensures forall i :: 0 <= i < |SeedFilms| ==> FilmOk(SeedFilms[i]) && SeedFilms[i].id == i + 1
  {
    forall i | 0 <= i < |SeedFilms|
      ensures FilmOk(SeedFilms[i])
    {
      var f := SeedFilms[i];
      NonBlankByFirst(f.title);
      NonBlankByFirst(f.director);
      NonBlankByFirst(f.description.value);
      NonBlankByFirst(f.imageUrl.value);
    }
  }

  /** What the seed records hold under the keys the handlers read. */
  lemma SeedFields()
    ensures |Seed()| == 5
    ensures forall i :: 0 <= i < 5 ==>
      && TextOf(Seed()[i], "title") == Some(SeedFilms[i].title)
      && TextOf(Seed()[i], "director") == Some(SeedFilms[i].director)
      && "duration" in Seed()[i] && Seed()[i]["duration"] == JNum(SeedFilms[i].duration)
  {
  }

  /** The seed list satisfies the store invariant, with ids 1 to 5 in order. */
  lemma SeedIsValid()
    ensures ValidStore(Seed())
    ensures |Seed()| == 5
    ensures forall i :: 0 <= i < 5 ==> IdOf(Seed()[i]) == Some((i + 1) as real)
  {
    SeedFilmsOk();
  }
}

/**
  Concrete requests against the seed list, for the final stage of the router.
  Each is derived from a statement about any store with the shape the seed list
  has, so that the seed's contents enter only through `SeedFields` and
  `SeedIsValid`.
 */
module Scenarios {
  import opened Wrappers
  import opened Json
  import opened Films
  import opened Router16

  /** The seed list's next id is 6. */
  lemma SeedNextId()
    ensures NextId(Seed()) == 6.0
  {
    SeedIsValid();
    NextIdOfNumbered(Seed());
  }

  /** No stored title has as many characters as the body's title, so nothing is a duplicate. */
  lemma NoDuplicateByTitleLength(s: Store, body: JsObject)
    requires TextOf(body, "title").Some?
    requires forall i :: 0 <= i < |s| && TextOf(s[i], "title").Some? ==>
      |TextOf(s[i], "title").value| != |TextOf(body, "title").value|
    ensures !HasDuplicate(s, body)
  {
    forall i | 0 <= i < |s|
      ensures !SameTitleAndDirector(s[i], body)
    {
      if TextOf(s[i], "title").Some? {
        assert |Lower(TextOf(s[i], "title").value)| != |Lower(TextOf(body, "title").value)|;
      }
    }
  }

  function Inception(): JsObject {
    map["title" := JStr("Inception"), "director" := JStr("Nolan"), "duration" := JNum(148.0)]
  }

  lemma InceptionIsNew()
    ensures ValidFilmBody(JObj(Inception()))
    ensures !HasDuplicate(Seed(), Inception())
  {
    NonBlankByFirst("Inception");
    NonBlankByFirst("Nolan");
    SeedFields();
    NoDuplicateByTitleLength(Seed(), Inception());
  }

  /** A valid body that repeats no stored film is appended under the next id. */
  lemma CreateAccepted(s: Store, body: JsObject)
    requires ValidFilmBody(JObj(body)) && !HasDuplicate(s, body)
    ensures Create(s, JObj(body)) ==
      Step(Response(200, One(NewRecord(NextId(s), body))), s + [NewRecord(NextId(s), body)])
  {
  }

  /** The stored record is the body with `id: 6` added. */
  lemma InceptionRecord()
    ensures NewRecord(6.0, Inception()) == Inception()["id" := JNum(6.0)]
  {
  }

  /** Posting a new film to the seed list stores it under id 6 at the end. */
  lemma PostNewFilm()
    ensures Create(Seed(), JObj(Inception())) ==
      Step(Response(200, One(NewRecord(6.0, Inception()))), Seed() + [NewRecord(6.0, Inception())])
  {
    InceptionIsNew();
    SeedNextId();
    CreateAccepted(Seed(), Inception());
  }

  function HerInCapitals(): JsObject {
    map["title" := JStr("HER"), "director" := JStr("spike jonze"), "duration" := JNum(126.0)]
  }

  /** A valid body repeating the title and director of stored film `i` is refused with 409. */
  lemma CreateConflict(s: Store, body: JsObject, i: nat)
    requires ValidFilmBody(JObj(body)) && i < |s| && SameTitleAndDirector(s[i], body)
    ensures Create(s, JObj(body)) == Step(SendStatus(409), s)
  {
  }

  lemma HerMatchesIgnoringCase()
    ensures SeedFilms[4].title == "her" && SeedFilms[4].director == "Spike Jonze"
    ensures SameIgnoringCase("her", "HER") && SameIgnoringCase("Spike Jonze", "spike jonze")
  {
    SameIgnoringCaseCharwise("her", "HER");
    SameIgnoringCaseCharwise("Spike Jonze", "spike jonze");
  }

  lemma HerIsStored()
    ensures |Seed()| == 5 && SameTitleAndDirector(Seed()[4], HerInCapitals())
  {
    SeedFields();
    HerMatchesIgnoringCase();
  }

  /** Posting the last seed film again, in other letter case, is a conflict. */
  lemma PostDuplicateIgnoringCase()
    ensures Create(Seed(), JObj(HerInCapitals())) == Step(SendStatus(409), Seed())
  {
    NonBlankByFirst("HER");
    NonBlankByFirst("spike jonze");
    assert ValidFilmBody(JObj(HerInCapitals()));
    HerIsStored();
    CreateConflict(Seed(), HerInCapitals(), 4);
  }

  /** On a five-film store whose first two films alone reach `m`, the filter keeps exactly those two. */
  lemma FilterFirstTwo(s: Store, m: real)
    requires |s| == 5
    requires LongEnough(s[0], m) && LongEnough(s[1], m)
    requires !LongEnough(s[2], m) && !LongEnough(s[3], m) && !LongEnough(s[4], m)
    ensures FilterMinDuration(s, m) == [s[0], s[1]]
  {
    assert s == [s[0]] + ([s[1]] + ([s[2]] + ([s[3]] + [s[4]])));
    FilterConcat([s[0]], [s[1]] + ([s[2]] + ([s[3]] + [s[4]])), m);
    FilterConcat([s[1]], [s[2]] + ([s[3]] + [s[4]]), m);
    FilterConcat([s[2]], [s[3]] + [s[4]], m);
    FilterConcat([s[3]], [s[4]], m);
    FilterOne(s[0], m);
    FilterOne(s[1], m);
    FilterOne(s[2], m);
    FilterOne(s[3], m);
    FilterOne(s[4], m);
  }

  /** Of the seed films only the first two last 130 minutes or more. */
  lemma SeedAt130()
    ensures LongEnough(Seed()[0], 130.0) && LongEnough(Seed()[1], 130.0)
    ensures !LongEnough(Seed()[2], 130.0) && !LongEnough(Seed()[3], 130.0)
    ensures !LongEnough(Seed()[4], 130.0)
  {
    SeedFields();
  }

  /** Listing with a minimum duration of 130 returns the first two seed films, in order. */
  lemma ListAtLeast130()
    ensures List(Seed(), Num(130.0)).response == Response(200, Many([Seed()[0], Seed()[1]]))
  {
    SeedFields();
    SeedAt130();
    FilterFirstTwo(Seed(), 130.0);
  }

  /** Deleting an id no film has is answered with 404. */
  lemma DeleteUnknown()
    ensures Delete(Seed(), Some(999.0)) == Step(SendStatus(404), Seed())
  {
    SeedIsValid();
  }

  /** An empty patch is refused with 400. */
  lemma PatchEmptyBody()
    ensures Patch(Seed(), Some(1.0), JObj(map[])) == Step(SendStatus(400), Seed())
  {
    SeedIsValid();
    assert FindIndex(Seed(), 1.0) == Some(0);
  }

  /** Patching an id no film has is answered with 400, not 404. */
  lemma PatchUnknownIs400()
    ensures Patch(Seed(), Some(999.0), JObj(map["duration" := JNum(90.0)])).response == SendStatus(400)
  {
    SeedIsValid();
  }

  /** A non-empty array passes the patch check and its indices become keys of the film. */
  lemma PatchWithArray()
    ensures var after := Patch(Seed(), Some(1.0), JArr([JNum(5.0)]));
      && after.response.status == 200
      && "0" in after.store[0] && after.store[0]["0"] == JNum(5.0)
  {
    SeedIsValid();
    assert FindIndex(Seed(), 1.0) == Some(0);
    ArrayIsValidPatch([JNum(5.0)]);
    assert ArrayProperties([JNum(5.0)]) == map["0" := JNum(5.0)];
  }

  function InceptionWithId1(): JsObject {
    Inception()["id" := JNum(1.0)]
  }

  lemma InceptionWithId1IsNew()
    ensures ValidFilmBody(JObj(InceptionWithId1()))
    ensures !HasDuplicate(Seed(), InceptionWithId1())
    ensures IdOf(NewRecord(6.0, InceptionWithId1())) == Some(1.0)
  {
    NonBlankByFirst("Inception");
    NonBlankByFirst("Nolan");
    SeedFields();
    NoDuplicateByTitleLength(Seed(), InceptionWithId1());
  }

  /** Appending a record whose id some stored film already has breaks id uniqueness. */
  lemma AppendRepeatedId(s: Store, r: Record, i: nat)
    requires i < |s| && IdOf(s[i]) == IdOf(r)
    ensures !UniqueIds(s + [r])
  {
    assert (s + [r])[i] == s[i] && (s + [r])[|s|] == r;
  }

  /**
    A POST body with its own `id` key keeps that id over the assigned one, so
    posting `id: 1` to the seed list leaves two films with id 1.
   */
  lemma BodyIdOverridesAssignedId()
    ensures var after := Create(Seed(), JObj(InceptionWithId1()));
      && after.response.status == 200
      && !UniqueIds(after.store)
  {
    InceptionWithId1IsNew();
    SeedNextId();
    CreateAccepted(Seed(), InceptionWithId1());
    SeedIsValid();
    AppendRepeatedId(Seed(), NewRecord(6.0, InceptionWithId1()), 0);
  }
}

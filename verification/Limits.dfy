/** Where the code does less than one might expect: concrete inputs, and what follows from them. */
module Limits {
  import opened ByteStrings
  import opened Keys
  import opened Store
  import opened Indexes
  import opened Batch
  import opened Revisions
  import opened Runs
  import opened Facets
  import opened Search
  import opened Histograms
  import opened KeyBuilding
  import Converters

  // ---- document ids ------------------------------------------------------------------------------

  /** Ids do not tell apart names that differ in case, nor names with pipes. */
  lemma IdsCollide()
    ensures GenID("c", "Home", "en") == GenID("c", "home", "en")
    ensures GenID("c", "a|b", "en") == GenID("c", "a", "b|en")
  {
    assert Lower("Home") == "home" == Lower("home");
    assert Lower("a|b") + "|" + Lower("en") == "a|b|en" == Lower("a") + "|" + Lower("b|en");
  }

  /** Adding "Home" and then "home" leaves one document and two entries: the key index no longer
      agrees with the documents. */
  lemma CaseVariantsDisagree(cfg: Config, first: AddRequest, second: AddRequest, now: Time, later: Time)
    requires first.key == "Home" && second.key == "home" && first.lang == second.lang == "en"
    requires cfg.schema("c", first.meta) && cfg.schema("c", second.meta)
    ensures var run := [Event(OpAdd("c", first), now, cfg), Event(OpAdd("c", second), later, cfg)];
            AgreesThrough(EMPTY, run, 1) && !AgreesThrough(EMPTY, run, 2)
  {
    var run := [Event(OpAdd("c", first), now, cfg), Event(OpAdd("c", second), later, cfg)];
    var one := Add(cfg, EMPTY, "c", first, now);
    assert After(EMPTY, run, 0) == EMPTY && After(EMPTY, run, 1) == one;
    EmptyStart();
    MisspelledSecond(cfg, first, second, now);
    assert SpelledThrough(EMPTY, run, 0) && SpelledThrough(EMPTY, run, 1) && !SpelledThrough(EMPTY, run, 2);
    KeysAgreeIff(EMPTY, run, 1);
    KeysAgreeIff(EMPTY, run, 2);
  }

  lemma MisspelledSecond(cfg: Config, first: AddRequest, second: AddRequest, now: Time)
    requires first.key == "Home" && second.key == "home" && first.lang == second.lang == "en"
    requires cfg.schema("c", first.meta) && cfg.schema("c", second.meta)
    ensures SpelledRight(cfg, EMPTY, OpAdd("c", first))
    ensures !SpelledRight(cfg, Add(cfg, EMPTY, "c", first, now), OpAdd("c", second))
  {
    IdsCollide();
    var dk := Target("c", "home", "en");
    var one := Add(cfg, EMPTY, "c", first, now);
    assert dk in one.docs && one.docs[dk].key == "Home" && one.docs[dk].lang == "en";
    assert Joined("Home", "en")[0] == 'H' && Joined("home", "en")[0] == 'h';
  }

  // ---- metadata keys -------------------------------------------------------------------------------

  /** With pipes in names and in metadata alike, two documents can own one index key. */
  lemma SharedIndexKey()
    ensures MetaKey("c", "a", "b", GenID("c", "x|c|k", "en")) == MetaKey("c", "a", "b|c|x", GenID("c", "k", "en"))
    ensures GenID("c", "x|c|k", "en") != GenID("c", "k", "en")
  {
    SomeIds();
    assert MetaKey("c", "a", "b", "c|x|c|k|en") == "meta|c|a|b|c|x|c|k|en" == MetaKey("c", "a", "b|c|x", "c|k|en");
  }

  lemma SomeIds()
    ensures GenID("c", "x|c|k", "en") == "c|x|c|k|en" && GenID("c", "k", "en") == "c|k|en"
            && GenID("c", "k", "en|x") == "c|k|en|x"
  {
    assert Lower("c") == "c" && Lower("k") == "k" && Lower("en") == "en";
    assert Lower("x|c|k") == "x|c|k" && Lower("en|x") == "en|x";
  }

  /** Deleting one of two documents that share an index key takes the key from the other. */
  lemma SharedKeyLost(s: Buckets, coll: string, key: string, lang: string, other: string, k: string)
    requires WellNamed(s) && IndexExact(s) && Plain(coll)
    requires Target(coll, key, lang) in s.docs && other in s.docs && other != Target(coll, key, lang)
    requires k in KeysOwned(s.docs, Target(coll, key, lang)) && k in KeysOwned(s.docs, other)
    ensures !IndexExact(Delete(s, coll, key, lang))
  {
    DeleteIsOwned(s, coll, key, lang);
    RemoveIff(s, {Target(coll, key, lang)}, {ByKeyKey(coll, key, lang)});
  }

  /** The facet of the field "a|b" counts the document ("k", "en") of collection "c", which has the
      value "b" in the field "a" and nothing else, under the value "c"; a scan counts none. */
  lemma FacetOfPipedField(cfg: Config, r: AddRequest, now: Time)
    requires r.key == "k" && r.lang == "en" && r.meta == map["a" := ["b"]] && cfg.schema("c", r.meta)
    ensures var s := Add(cfg, EMPTY, "c", r, now);
            && |Tally(s.idx, FieldPrefix("c", "a|b"), None, "c")| == 1
            && DocsWith(s, "c", "a|b", None, "c") == {}
  {
    var s, k := Add(cfg, EMPTY, "c", r, now), MetaKey("c", "a", "b", GenID("c", "k", "en"));
    OneIndexKey(cfg, r, now);
    CountedTwice();
    assert Tally(s.idx, FieldPrefix("c", "a|b"), None, "c") == {k};
    assert "a|b" != "a";
  }

  lemma OneIndexKey(cfg: Config, r: AddRequest, now: Time)
    requires r.key == "k" && r.lang == "en" && r.meta == map["a" := ["b"]] && cfg.schema("c", r.meta)
    ensures Add(cfg, EMPTY, "c", r, now).idx == {MetaKey("c", "a", "b", GenID("c", "k", "en"))}
  {
    assert r.meta["a"][0] == "b";
    assert NO_DOC.meta != r.meta;
  }

  lemma CountedTwice()
    ensures CountsFor(MetaKey("c", "a", "b", GenID("c", "k", "en")), FieldPrefix("c", "a|b"), None, "c")
  {
    SomeIds();
    var k := MetaKey("c", "a", "b", GenID("c", "k", "en"));
    assert FieldPrefix("c", "a|b") + "c" + "|" == "meta|c|a|b|c|" && k == "meta|c|a|b|c|" + "k|en";
  }

  /** The search for the value "b|c" under "a" returns the document ("k", "en") of collection "c", whose
      only pair is "c" under "a|b"; a filtered scan does not. */
  lemma SearchResplitsPair(cfg: Config, r: AddRequest, now: Time)
    requires r.key == "k" && r.lang == "en" && r.meta == map["a|b" := ["c"]] && r.ttl == 0 && cfg.schema("c", r.meta)
    ensures var s, filter, d := Add(cfg, EMPTY, "c", r, now), map["a" := ["b|c"]], AddedDoc(EMPTY, "c", r, now);
            Answered(s, "c", filter, now, d) && !Returned(s, "c", filter, now, d)
  {
    var s, filter, d := Add(cfg, EMPTY, "c", r, now), map["a" := ["b|c"]], AddedDoc(EMPTY, "c", r, now);
    var id := GenID("c", "k", "en");
    assert r.meta["a|b"][0] == "c" && HasPair(r.meta, "a|b", "c");
    assert MetaKey("c", "a|b", "c", id) in MetaKeys("c", r.meta, id);
    SameJoinedSameKey("c", "a|b", "c", "a", "b|c", id);
    assert filter["a"][0] == "b|c" && Listed(s.idx, "c", "a", filter["a"], id);
    assert Selected(s.idx, "c", filter, id) && LoadedAs(s, "c", id, now, d);
    assert "a" != "a|b" && !Matches(d, filter) by {
      assert "a" in filter && "a" !in d.meta;
    }
  }

  /** Of two documents added 1000 days apart the daily histogram drops the later one. */
  lemma LastDocumentDropped(cfg: Config, first: AddRequest, second: AddRequest)
    requires first.key == "a" && second.key == "b" && first.lang == second.lang == "en"
    requires cfg.schema("c", first.meta) && cfg.schema("c", second.meta)
    ensures var s := Add(cfg, Add(cfg, EMPTY, "c", first, 1), "c", second, 86_400_000);
            && |AllStamped(s, "c", "addedAt", None)| == 2
            && Spans(1, 86_400_000, s, "c", "addedAt", None)
            && |Reached(s, "c", "addedAt", Day, None, 1)| == 1
  {
    var a, b := Target("c", "a", "en"), Target("c", "b", "en");
    var s := TwoDays(cfg, first, second);
    assert AllStamped(s, "c", "addedAt", None) == {a, b};
    assert Histograms.Stamped(s, "c", "addedAt", None, a) && Histograms.Stamped(s, "c", "addedAt", None, b);
    assert IntervalOf(Day, 1) == 0 && IntervalOf(Day, 86_400_000) == 1000;
    assert Reached(s, "c", "addedAt", Day, None, 1) == {a};
  }

  lemma TwoDays(cfg: Config, first: AddRequest, second: AddRequest) returns (s: Buckets)
    requires first.key == "a" && second.key == "b" && first.lang == second.lang == "en"
    requires cfg.schema("c", first.meta) && cfg.schema("c", second.meta)
    ensures s == Add(cfg, Add(cfg, EMPTY, "c", first, 1), "c", second, 86_400_000)
    ensures var a, b := Target("c", "a", "en"), Target("c", "b", "en");
            && a != b && s.docs.Keys == {a, b} == CollectionKeys(s, "c")
            && s.docs[a].addedAt == 1 && s.docs[b].addedAt == 86_400_000
  {
    s := Add(cfg, Add(cfg, EMPTY, "c", first, 1), "c", second, 86_400_000);
    assert Lower("a")[0] == 'a' && Lower("b")[0] == 'b';
    assert Target("c", "a", "en")[8] == 'a' && Target("c", "b", "en")[8] == 'b';
  }

  // ---- batches ------------------------------------------------------------------------------------------

  /** A batch that names one document twice with other metadata leaves a key of the first version in
      the index; single adds do not. */
  lemma RepeatedDocumentLeavesKey(cfg: Config, first: BatchRequest, second: BatchRequest, now: Time)
    requires first.key == second.key == "k" && first.lang == second.lang == "en"
    requires first.meta == map["a" := ["x"]] && second.meta == map["a" := ["y"]]
    requires cfg.schema("c", first.meta) && cfg.schema("c", second.meta)
    ensures !IndexExact(BatchAdd(cfg, EMPTY, "c", [first, second], now))
    ensures IndexExact(WriteAll(cfg, EMPTY, "c", [first, second], now))
  {
    var rs, id := [first, second], GenID("c", "k", "en");
    EmptyStart();
    BatchKeepsIndexIff(cfg, EMPTY, "c", rs, now);
    WriteAllKeepsIndex(cfg, EMPTY, "c", rs, now);
    TwoVersions(cfg, first, second);
    Uncovered(first.meta, second.meta, id);
    assert first in rs && !TidyFor(cfg, EMPTY, "c", rs, id);
  }

  lemma TwoVersions(cfg: Config, first: BatchRequest, second: BatchRequest)
    requires first.key == second.key && first.lang == second.lang && Writable(cfg, "c", first)
             && Writable(cfg, "c", second)
    ensures Versions(cfg, "c", [first, second], GenID("c", first.key, first.lang)) == [first.meta, second.meta]
  {
    var id := GenID("c", first.key, first.lang);
    var one: seq<BatchRequest>, two: seq<BatchRequest> := [first], [first, second];
    assert two[..1] == one && one[..0] == [];
    assert Versions(cfg, "c", one, id) == [first.meta];
    assert Versions(cfg, "c", two, id) == [first.meta] + [second.meta] == [first.meta, second.meta];
  }

  lemma Uncovered(m1: Meta, m2: Meta, id: string)
    requires m1 == map["a" := ["x"]] && m2 == map["a" := ["y"]]
    ensures !Covered("c", id, map[], [m1, m2])
  {
    var k1, k2 := MetaKey("c", "a", "x", id), MetaKey("c", "a", "y", id);
    var ms := [m1, m2];
    assert "a" in m1 && "a" in m2;
    assert ms[..1] == [m1] && [m1][..0] == [];
    assert ms[|ms| - 1] != map[] && ChangedThrough(map[], ms) == 2;
    assert ["x"][0] == "x" && k1 in MetaKeys("c", m1, id);
    assert MetaKeys("c", map[], id) == {};
    assert k1 in ChangedKeys("c", id, map[], [m1]);
    assert MetaPrefix("c", "a", "x")[9] == 'x' && MetaPrefix("c", "a", "y")[9] == 'y';
    assert k1[9] == 'x' && k2[9] == 'y';
    assert m2["a"][0] == "y" && MetaKeys("c", m2, id) == {k2};
    assert k1 in (ChangedKeys("c", id, map[], ms[..1]) - MetaKeys("c", map[], id)) + MetaKeys("c", ms[1], id);
    assert k1 !in MetaKeys("c", ms[1], id);
  }

  // ---- revisions --------------------------------------------------------------------------------------

  /** With a pipe in a language the revisions of one document lie under the prefix of another. */
  lemma SomeNames()
    ensures var long, short := Target("c", "k", "en|x"), Target("c", "k", "en");
            long != short && CollOf(long) == CollOf(short) == "c"
    ensures Begins(GenID("c", "k", "en"), GenID("c", "k", "en|x")) && Plain("c")
  {
    SomeIds();
    CollOfDocKey("c", GenID("c", "k", "en|x"));
    CollOfDocKey("c", GenID("c", "k", "en"));
    assert GenID("c", "k", "en|x") + "|" == (GenID("c", "k", "en") + "|") + "x|";
    assert |Target("c", "k", "en|x")| == |Target("c", "k", "en")| + 2;
  }

  /** Two recorded adds. */
  ghost predicate TwoAdds(cfg: Config, long: AddRequest, short: AddRequest) {
    && long.key == short.key == "k" && long.lang == "en|x" && short.lang == "en" && long.saveRev && short.saveRev
    && cfg.schema("c", long.meta) && cfg.schema("c", short.meta)
  }

  /** Deleting ("k", "en") takes every revision of ("k", "en|x"), which stays. */
  lemma DeleteTakesRevisions(cfg: Config, long: AddRequest, short: AddRequest, t1: Time, t2: Time, t3: Time)
    requires TwoAdds(cfg, long, short) && "c" !in cfg.maxRevisions
    ensures var run := [Event(OpAdd("c", long), t1, cfg), Event(OpAdd("c", short), t2, cfg),
                        Event(OpDelete("c", "k", "en"), t3, cfg)];
            SoundThrough(EMPTY, run, 2) && !SoundThrough(EMPTY, run, 3)
  {
    var run := [Event(OpAdd("c", long), t1, cfg), Event(OpAdd("c", short), t2, cfg),
                Event(OpDelete("c", "k", "en"), t3, cfg)];
    var one := Add(cfg, EMPTY, "c", long, t1);
    var two := Add(cfg, one, "c", short, t2);
    assert After(EMPTY, run, 0) == EMPTY && After(EMPTY, run, 1) == one && After(EMPTY, run, 2) == two;
    EmptyStart();
    SomeNames();
    assert Recorded(cfg, EMPTY, OpAdd("c", long), t1);
    SecondRecorded(cfg, long, short, t1, t2);
    DeleteUnrecorded(cfg, long, short, t1, t2, t3);
    assert RecordedThrough(EMPTY, run, 0) && RecordedThrough(EMPTY, run, 1);
    assert RecordedThrough(EMPTY, run, 2) && !RecordedThrough(EMPTY, run, 3);
    HistorySoundIff(EMPTY, run, 2);
    HistorySoundIff(EMPTY, run, 3);
  }

  lemma DeleteUnrecorded(cfg: Config, long: AddRequest, short: AddRequest, t1: Time, t2: Time, t3: Time)
    requires TwoAdds(cfg, long, short)
    ensures !Recorded(cfg, Add(cfg, Add(cfg, EMPTY, "c", long, t1), "c", short, t2), OpDelete("c", "k", "en"), t3)
  {
    var two := Add(cfg, Add(cfg, EMPTY, "c", long, t1), "c", short, t2);
    SomeNames();
    var x := Target("c", "k", "en|x");
    assert x in two.docs && Begun(two, {Target("c", "k", "en")}, x);
  }

  lemma SecondRecorded(cfg: Config, long: AddRequest, short: AddRequest, t1: Time, t2: Time)
    requires TwoAdds(cfg, long, short) && "c" !in cfg.maxRevisions
    ensures Recorded(cfg, Add(cfg, EMPTY, "c", long, t1), OpAdd("c", short), t2)
  {
    var one := Add(cfg, EMPTY, "c", long, t1);
    SomeNames();
    var doc := AddedDoc(one, "c", short, t2);
    forall x | x in one.docs && CollOf(x) == "c" && one.docs[x].id != doc.id
      ensures SparedByWrite(cfg, one, "c", doc, t2, x)
    {
      assert one.docs[x].updatedAt == t1;
    }
  }

  /** With one revision kept, adding ("k", "en") after ("k", "en|x") trims the revision just written. */
  lemma TrimTakesOwnRevision(cfg: Config, long: AddRequest, short: AddRequest, t1: Time, t2: Time)
    requires TwoAdds(cfg, long, short) && "c" in cfg.maxRevisions && cfg.maxRevisions["c"] == 1
    ensures var run := [Event(OpAdd("c", long), t1, cfg), Event(OpAdd("c", short), t2, cfg)];
            SoundThrough(EMPTY, run, 1) && !SoundThrough(EMPTY, run, 2)
  {
    var run := [Event(OpAdd("c", long), t1, cfg), Event(OpAdd("c", short), t2, cfg)];
    var one := Add(cfg, EMPTY, "c", long, t1);
    assert After(EMPTY, run, 0) == EMPTY && After(EMPTY, run, 1) == one;
    EmptyStart();
    SomeNames();
    LoneWriteSpares(cfg, EMPTY, "c", AddedDoc(EMPTY, "c", long, t1), t1);
    assert Recorded(cfg, EMPTY, OpAdd("c", long), t1);
    OwnIsTrimmed(cfg, long, short, t1, t2);
    assert RecordedThrough(EMPTY, run, 0) && RecordedThrough(EMPTY, run, 1) && !RecordedThrough(EMPTY, run, 2);
    HistorySoundIff(EMPTY, run, 1);
    HistorySoundIff(EMPTY, run, 2);
  }

  lemma OwnIsTrimmed(cfg: Config, long: AddRequest, short: AddRequest, t1: Time, t2: Time)
    requires TwoAdds(cfg, long, short) && "c" in cfg.maxRevisions && cfg.maxRevisions["c"] == 1
    requires WriteSpares(cfg, EMPTY, "c", AddedDoc(EMPTY, "c", long, t1), t1)
    ensures !Recorded(cfg, Add(cfg, EMPTY, "c", long, t1), OpAdd("c", short), t2)
  {
    var one := Add(cfg, EMPTY, "c", long, t1);
    var id1, id2 := GenID("c", "k", "en|x"), GenID("c", "k", "en");
    var other, own := RevKey("c", id1, t1), RevKey("c", id2, t2);
    var put := PutRevision(one.rev, "c", AddedDoc(one, "c", short, t2), t2);
    FirstKept(cfg, long, t1);
    SortsBefore(t1, t2);
    SomeNames();
    RevisionUnderIff("c", id2, "c", id1, t1);
    assert other in put && other in LaterKeys(put, "c", id2, own);
    SubsetSize({other}, LaterKeys(put, "c", id2, own));
    assert IsRevOf(own, "c", id2) && !Spared(put, "c", id2, 1, own);
  }

  lemma FirstKept(cfg: Config, long: AddRequest, t1: Time)
    requires Accepted(cfg, "c", long) && long.saveRev && "c" in cfg.maxRevisions && cfg.maxRevisions["c"] == 1
    requires WriteSpares(cfg, EMPTY, "c", AddedDoc(EMPTY, "c", long, t1), t1)
    ensures RevKey("c", GenID("c", long.key, long.lang), t1) in Add(cfg, EMPTY, "c", long, t1).rev
  {
    var doc := AddedDoc(EMPTY, "c", long, t1);
    KeptIff(PutRevision(EMPTY.rev, "c", doc, t1), "c", doc.id, 1, RevKey("c", doc.id, t1));
  }

  /** A digit sorts before the letter. */
  lemma SortsBefore(t1: Time, t2: Time)
    ensures Less(RevKey("c", GenID("c", "k", "en"), t2), RevKey("c", GenID("c", "k", "en|x"), t1))
  {
    SomeIds();
    var p := RevPrefix("c", GenID("c", "k", "en"));
    assert RevKey("c", GenID("c", "k", "en|x"), t1) == p + ("x|" + Stamp(t1));
    Power10Of20();
    PadDecodes(t2, 20);
    assert Stamp(t2)[0] <= '9' < ("x|" + Stamp(t1))[0];
    LessAfterPrefix(p, Stamp(t2), "x|" + Stamp(t1));
  }

  // ---- key buffers ------------------------------------------------------------------------------------

  /** Documents whose ids agree on the first bytes that fit get one key. */
  lemma LongIdsCollide(coll: string, id: string, x: string, y: string)
    requires |DocKey(coll, id)| >= BUFFER
    ensures Cut(DocKey(coll, id + x)) == Cut(DocKey(coll, id + y))
  {
    assert DocKey(coll, id + x) == DocKey(coll, id) + x && DocKey(coll, id + y) == DocKey(coll, id) + y;
    assert Cut(DocKey(coll, id + x)) == DocKey(coll, id)[..BUFFER] == Cut(DocKey(coll, id + y));
  }

  // ---- converters --------------------------------------------------------------------------------------

  /** A limit of the function alone, since the program only passes replacements without a backslash:
      one that brings the command back is rewritten into itself, for ever. */
  lemma ReplacementReturns()
    ensures var s := "\\a{}";
            var c := Converters.FindCommand(s, "\\a");
            c.Some? && Converters.CarryOut(s, c.value.idx, c.value.plan, s, "") == s
  {
    var s := "\\a{}";
    assert Converters.OccursAt(s, "\\a", 0);
    Converters.IndexIs(s, "\\a", 0);
    assert s[3..3] == "";
    Converters.ArgumentKept(s, 2, 3);
  }
}

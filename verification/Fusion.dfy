/** Merging keyword and vector results (services/mddbd/hybrid_search.go). Scores are real numbers. */
module Fusion {

  datatype Item = Item(id: string, score: real)

  // ---- ranking by score and cutting ----------------------------------------------------------------

  ghost predicate Descending(items: seq<Item>) {
    forall i, j | 0 <= i < j < |items| :: items[i].score >= items[j].score
  }

  ghost predicate DistinctIds(items: seq<Item>) {
    forall i, j | 0 <= i < j < |items| :: items[i].id != items[j].id
  }

  ghost predicate HasId(items: seq<Item>, id: string) {
    exists i :: 0 <= i < |items| && items[i].id == id
  }

  /** The items are ids with their scores, best first, and as many as asked for; none left out
      has a higher score than one that is in. */
  ghost predicate TopOf(items: seq<Item>, scores: map<string, real>, topK: int) {
    && DistinctIds(items) && Descending(items)
    && (forall i | 0 <= i < |items| :: items[i].id in scores && items[i].score == scores[items[i].id])
    && |items| == (if 0 < topK < |scores| then topK else |scores|)
    && (forall id, i | id in scores && !HasId(items, id) && 0 <= i < |items| :: scores[id] <= items[i].score)
  }

  /** Where an item goes in a descending list. */
  function Place(items: seq<Item>, score: real): (k: nat)
    ensures k <= |items|
    ensures forall i | 0 <= i < k :: items[i].score >= score
    ensures k < |items| ==> items[k].score < score
  {
    if items == [] || items[0].score < score then 0 else 1 + Place(items[1..], score)
  }

  /** The ids gathered so far as a descending list. */
  ghost predicate Listing(items: seq<Item>, scores: map<string, real>, done: set<string>) {
    && DistinctIds(items) && Descending(items) && |items| == |done|
    && (forall i | 0 <= i < |items| ::
          items[i].id in done && items[i].id in scores && items[i].score == scores[items[i].id])
  }

  function PutAt(items: seq<Item>, k: nat, x: Item): (r: seq<Item>)
    requires k <= |items|
    ensures |r| == |items| + 1 && r[k] == x
    ensures forall i | 0 <= i < k :: r[i] == items[i]
    ensures forall i | k < i < |r| :: r[i] == items[i - 1]
  {
    items[..k] + [x] + items[k..]
  }

  lemma PutKeepsOrder(items: seq<Item>, x: Item)
    requires Descending(items)
    ensures Descending(PutAt(items, Place(items, x.score), x))
  {
    var k := Place(items, x.score);
    forall i | k <= i < |items| ensures items[i].score < x.score {
      assert k < i ==> items[k].score >= items[i].score;
    }
  }

  lemma ListOneMore(items: seq<Item>, scores: map<string, real>, done: set<string>, id: string)
    requires Listing(items, scores, done) && id in scores && id !in done
    ensures Listing(PutAt(items, Place(items, scores[id]), Item(id, scores[id])), scores, done + {id})
  {
    PutKeepsOrder(items, Item(id, scores[id]));
  }

  lemma {:induction false} AllListed(items: seq<Item>, scores: map<string, real>, done: set<string>, id: string)
    requires Listing(items, scores, done) && id in done
    ensures HasId(items, id)
    decreases |items|
  {
    assert done != {};
    var last := items[|items| - 1];
    if last.id != id {
      var fewer := items[..|items| - 1];
      assert Listing(fewer, scores, done - {last.id});
      AllListed(fewer, scores, done - {last.id}, id);
      var i :| 0 <= i < |fewer| && fewer[i].id == id;
      assert items[i].id == id;
    }
  }

  /** Sorting the merged scores and keeping the best. Ties may come in any order. */
  method RankAndCut(scores: map<string, real>, topK: int) returns (items: seq<Item>)
    ensures TopOf(items, scores, topK)
  {
    items := [];
    var todo := scores.Keys;
    ghost var done: set<string> := {};
    while todo != {}
      invariant todo !! done && todo + done == scores.Keys
      invariant Listing(items, scores, done)
      decreases |todo|
    {
      var id :| id in todo;
      ListOneMore(items, scores, done, id);
      var k := Place(items, scores[id]);
      items := PutAt(items, k, Item(id, scores[id]));
      todo, done := todo - {id}, done + {id};
    }
    assert done == scores.Keys;
    CutIsTop(items, scores, topK);
    if topK > 0 && |items| > topK {
      items := items[..topK];
    }
  }

  lemma CutIsTop(items: seq<Item>, scores: map<string, real>, topK: int)
    requires Listing(items, scores, scores.Keys)
    ensures TopOf(if topK > 0 && |items| > topK then items[..topK] else items, scores, topK)
  {
    var cut := if topK > 0 && |items| > topK then items[..topK] else items;
    forall id, i | id in scores && !HasId(cut, id) && 0 <= i < |cut| ensures scores[id] <= cut[i].score {
      assert forall x | 0 <= x < |cut| :: cut[x].id != id && cut[x] == items[x];
      AllListed(items, scores, scores.Keys, id);
      var j :| 0 <= j < |items| && items[j].id == id;
      assert items[i].score >= items[j].score;
    }
  }

  // ---- reciprocal rank fusion ------------------------------------------------------------------------

  function Reciprocal(k: nat, rank: nat): real
    requires rank >= 1
  {
    1.0 / (k as real + rank as real)
  }

  /** The last rank of an id in a list, from 1; 0 when it is not there. */
  ghost function RankOf(ids: seq<string>, id: string): (r: nat)
    ensures r <= |ids| && (r == 0 <==> id !in ids) && (r > 0 ==> ids[r - 1] == id)
    ensures forall i | r <= i < |ids| :: ids[i] != id
  {
    if ids == [] then 0 else if ids[|ids| - 1] == id then |ids| else RankOf(ids[..|ids| - 1], id)
  }

  ghost predicate Distinct(ids: seq<string>) { forall i, j | 0 <= i < j < |ids| :: ids[i] != ids[j] }

  ghost function Part(ids: seq<string>, k: nat, id: string): real {
    if RankOf(ids, id) == 0 then 0.0 else Reciprocal(k, RankOf(ids, id))
  }

  /** Every place of an id in the second list counts. */
  ghost function Sum(ids: seq<string>, k: nat, id: string): real {
    if ids == [] then 0.0
    else Sum(ids[..|ids| - 1], k, id) + if ids[|ids| - 1] == id then Reciprocal(k, |ids|) else 0.0
  }

  lemma {:induction false} SumIsPart(ids: seq<string>, k: nat, id: string)
    requires Distinct(ids)
    ensures Sum(ids, k, id) == Part(ids, k, id)
  {
    if ids != [] {
      SumIsPart(ids[..|ids| - 1], k, id);
    }
  }

  ghost function Fused(a: seq<string>, b: seq<string>, k: nat, id: string): real { Part(a, k, id) + Sum(b, k, id) }

  /** In lists without repeats an id counts one over k and its rank, in each list it is in. */
  lemma FusedIs(a: seq<string>, b: seq<string>, k: nat, id: string, i: nat, j: nat)
    requires Distinct(a) && Distinct(b)
    ensures i < |a| && a[i] == id && id !in b ==> Fused(a, b, k, id) == 1.0 / (k + i + 1) as real
    ensures j < |b| && b[j] == id && id !in a ==> Fused(a, b, k, id) == 1.0 / (k + j + 1) as real
    ensures i < |a| && a[i] == id && j < |b| && b[j] == id ==>
              Fused(a, b, k, id) == 1.0 / (k + i + 1) as real + 1.0 / (k + j + 1) as real
  {
    SumIsPart(b, k, id);
    RankIs(a, id, i);
    RankIs(b, id, j);
  }

  lemma RankIs(ids: seq<string>, id: string, i: nat)
    requires Distinct(ids)
    ensures i < |ids| && ids[i] == id ==> RankOf(ids, id) == i + 1
  {
  }

  /** The fused scores of all ids of either list. */
  ghost function FusedMap(a: seq<string>, b: seq<string>, k: nat): (scores: map<string, real>)
    ensures FusedScores(scores, a, b, k)
  {
    map id | id in (set x | x in a) + (set x | x in b) :: Fused(a, b, k, id)
  }

  ghost predicate FusedScores(scores: map<string, real>, a: seq<string>, b: seq<string>, k: nat) {
    forall id :: (id in scores <==> id in a || id in b) && (id in scores ==> scores[id] == Fused(a, b, k, id))
  }

  lemma RankOneMore(ids: seq<string>, i: nat, id: string)
    requires i < |ids|
    ensures RankOf(ids[..i + 1], id) == if ids[i] == id then i + 1 else RankOf(ids[..i], id)
    ensures id in ids[..i + 1] <==> id in ids[..i] || id == ids[i]
  {
    assert ids[..i + 1][..i] == ids[..i];
    assert ids[..i + 1] == ids[..i] + [ids[i]];
  }

  /** Both lists scored by rank, added up, best first. */
  method MergeRRF(fts: seq<string>, vec: seq<string>, rrfK: nat, topK: int) returns (items: seq<Item>)
    ensures TopOf(items, FusedMap(fts, vec, rrfK), topK)
  {
    var combined: map<string, real> := map[];
    for i := 0 to |fts|
      invariant FusedScores(combined, fts[..i], [], rrfK)
    {
      forall id {
        RankOneMore(fts, i, id);
      }
      combined := combined[fts[i] := Reciprocal(rrfK, i + 1)];
    }
    assert fts[..|fts|] == fts;
    for i := 0 to |vec|
      invariant FusedScores(combined, fts, vec[..i], rrfK)
    {
      VecOneMore(combined, fts, vec, i, rrfK);
      combined := combined[vec[i] := (if vec[i] in combined then combined[vec[i]] else 0.0) + Reciprocal(rrfK, i + 1)];
    }
    assert vec[..|vec|] == vec;
    assert combined == FusedMap(fts, vec, rrfK);
    items := RankAndCut(combined, topK);
  }

  lemma {:induction false} SumAbsent(ids: seq<string>, k: nat, id: string)
    requires id !in ids
    ensures Sum(ids, k, id) == 0.0
  {
    if ids != [] {
      SumAbsent(ids[..|ids| - 1], k, id);
    }
  }

  lemma SumOneMore(ids: seq<string>, i: nat, k: nat, id: string)
    requires i < |ids|
    ensures Sum(ids[..i + 1], k, id) == Sum(ids[..i], k, id) + if ids[i] == id then Reciprocal(k, i + 1) else 0.0
  {
    assert ids[..i + 1][..i] == ids[..i];
  }

  lemma VecOneMore(scores: map<string, real>, fts: seq<string>, vec: seq<string>, i: nat, k: nat)
    requires i < |vec| && FusedScores(scores, fts, vec[..i], k)
    ensures var before := if vec[i] in scores then scores[vec[i]] else 0.0;
            FusedScores(scores[vec[i] := before + Reciprocal(k, i + 1)], fts, vec[..i + 1], k)
  {
    var v := vec[i];
    var more := scores[v := (if v in scores then scores[v] else 0.0) + Reciprocal(k, i + 1)];
    if v !in scores {
      SumAbsent(vec[..i], k, v);
    }
    forall id
      ensures (id in more <==> id in fts || id in vec[..i + 1]) && (id in more
              ==> more[id] == Fused(fts, vec[..i + 1], k, id))
    {
      RankOneMore(vec, i, id);
      SumOneMore(vec, i, k, id);
    }
  }

  // ---- who outscores whom -------------------------------------------------------------------------------

  /** Two reciprocals together against one, exactly. */
  lemma PairBeatsIff(k: nat, i: nat, j: nat, r: nat)
    requires i >= 1 && j >= 1 && r >= 1
    ensures Reciprocal(k, i) + Reciprocal(k, j) > Reciprocal(k, r) <==> (2 * k + i + j) * (k + r) > (k + i) * (k + j)
  {
    var x, y, z := (k + i) as real, (k + j) as real, (k + r) as real;
    SumOfReciprocals(x, y, z);
    assert (x + y) * z == ((2 * k + i + j) * (k + r)) as real;
    assert x * y == ((k + i) * (k + j)) as real;
  }

  lemma SumOfReciprocals(x: real, y: real, z: real)
    requires x > 0.0 && y > 0.0 && z > 0.0
    ensures 1.0 / x + 1.0 / y > 1.0 / z <==> (x + y) * z > x * y
  {
    assert 1.0 / x + 1.0 / y == (x + y) / (x * y);
    assert (x + y) / (x * y) > 1.0 / z <==> (x + y) * z > x * y;
  }

  /** In both lists at ranks at most k + 1 beats any rank in one list. */
  lemma BothBeatsOne(k: nat, i: nat, j: nat, r: nat)
    requires 1 <= i <= k + 1 && 1 <= j <= k + 1 && r >= 1
    ensures Reciprocal(k, i) + Reciprocal(k, j) > Reciprocal(k, r)
  {
    PairBeatsIff(k, i, j, r);
    Products(k + i, k + j, 2 * k + 1, k + r);
  }

  lemma Products(p: nat, q: nat, m: nat, s: nat)
    requires 1 <= p <= m && 1 <= q <= m && m + 1 <= 2 * s
    ensures (p + q) * s > p * q
  {
    Scale(q, m, p);
    Scale(p, m, q);
    Scale(m + 1, 2 * s, p + q);
    Spread(m, 1, p + q);
    Spread(p, q, m);
    Spread(s, s, p + q);
  }

  lemma Scale(a: nat, b: nat, c: nat)
    requires a <= b
    ensures a * c <= b * c && c * a <= c * b
  {
  }

  lemma Spread(a: nat, b: nat, c: nat)
    ensures (a + b) * c == a * c + b * c && c * (a + b) == c * a + c * b
  {
  }

  /** The bound is sharp: twice at rank k + 2 is worth no more than once at rank 1. */
  lemma TieBeyond(k: nat)
    ensures Reciprocal(k, k + 2) + Reciprocal(k, k + 2) == Reciprocal(k, 1)
  {
    var x := (k + 1) as real;
    assert (2 * k + 2) as real == 2.0 * x;
    assert 1.0 / (2.0 * x) + 1.0 / (2.0 * x) == 1.0 / x;
  }

  /** A document at ranks at most k + 1 in both lists comes before every document of one list only:
      if the latter made the cut, so did the former, and earlier. */
  lemma BothComeFirst(items: seq<Item>, fts: seq<string>, vec: seq<string>, k: nat, topK: int, both: string, j: nat)
    requires TopOf(items, FusedMap(fts, vec, k), topK) && Distinct(vec)
    requires 1 <= RankOf(fts, both) <= k + 1 && 1 <= RankOf(vec, both) <= k + 1
    requires j < |items| && (items[j].id !in fts || items[j].id !in vec)
    ensures exists i :: 0 <= i < j && items[i].id == both
  {
    var one, scores := items[j].id, FusedMap(fts, vec, k);
    assert one in scores && both in scores && scores[one] == items[j].score;
    BothOutscores(scores, fts, vec, k, both, one);
    HigherComesFirst(items, scores, topK, both, j);
  }

  lemma HigherComesFirst(items: seq<Item>, scores: map<string, real>, topK: int, id: string, j: nat)
    requires TopOf(items, scores, topK) && id in scores && j < |items| && scores[id] > items[j].score
    ensures exists i :: 0 <= i < j && items[i].id == id
  {
    assert forall x | j < x < |items| :: items[j].score >= items[x].score;
    assert HasId(items, id);
    var i :| 0 <= i < |items| && items[i].id == id;
  }

  lemma BothOutscores(scores: map<string, real>, fts: seq<string>, vec: seq<string>, k: nat, both: string, one: string)
    requires FusedScores(scores, fts, vec, k) && Distinct(vec) && one in scores && both in scores
    requires 1 <= RankOf(fts, both) <= k + 1 && 1 <= RankOf(vec, both) <= k + 1
    requires one !in fts || one !in vec
    ensures scores[both] > scores[one]
  {
    BothBeatsOne(k, RankOf(fts, both), RankOf(vec, both), if one in fts then RankOf(fts, one) else RankOf(vec, one));
    SumIsPart(vec, k, both);
    SumIsPart(vec, k, one);
    assert scores[both] == Fused(fts, vec, k, both) && scores[one] == Fused(fts, vec, k, one);
  }

  // ---- blending ---------------------------------------------------------------------------------------------

  datatype Range = Range(min: real, max: real)

  /** Least and greatest keyword score; both 0 without results. */
  ghost predicate IsRange(r: Range, fts: seq<Item>) {
    && (fts == [] ==> r == Range(0.0, 0.0))
    && (forall i | 0 <= i < |fts| :: r.min <= fts[i].score <= r.max)
    && (fts != [] ==> exists i :: 0 <= i < |fts| && r.min == fts[i].score)
    && (fts != [] ==> exists i :: 0 <= i < |fts| && r.max == fts[i].score)
  }

  method ScoreRange(fts: seq<Item>) returns (r: Range)
    ensures IsRange(r, fts)
  {
    if |fts| == 0 {
      return Range(0.0, 0.0);
    }
    var min, max := fts[0].score, fts[0].score;
    for i := 1 to |fts|
      invariant forall j | 0 <= j < i :: min <= fts[j].score <= max
      invariant exists j :: 0 <= j < i && min == fts[j].score
      invariant exists j :: 0 <= j < i && max == fts[j].score
    {
      if fts[i].score < min {
        min := fts[i].score;
      }
      if fts[i].score > max {
        max := fts[i].score;
      }
    }
    r := Range(min, max);
  }

  function Normalized(r: Range, score: real): real {
    if r.max == r.min then (if r.max > 0.0 then 1.0 else 0.0)
    else (score - r.min) / (r.max - r.min)
  }

  /** Normalized scores lie between 0 and 1. */
  lemma NormalizedInUnit(r: Range, x: real)
    requires r.min <= x <= r.max
    ensures 0.0 <= Normalized(r, x) <= 1.0
  {
    if r.min < r.max {
      Quotients(x - r.min, 0.0, r.max - r.min);
      Quotients(r.max - r.min, x - r.min, r.max - r.min);
    }
  }

  /** Unless all scores are equal, normalizing keeps their order exactly. */
  lemma NormalizedKeepsOrder(r: Range, x: real, y: real)
    requires r.min < r.max
    ensures x < y <==> Normalized(r, x) < Normalized(r, y)
  {
    Quotients(x - r.min, y - r.min, r.max - r.min);
  }

  lemma Quotients(a: real, b: real, w: real)
    requires w > 0.0
    ensures a < b <==> a / w < b / w
    ensures w / w == 1.0 && 0.0 / w == 0.0
  {
    assert a == (a / w) * w && b == (b / w) * w;
  }

  /** The last score of an id; 0 when it is not listed. */
  ghost function LastScore(items: seq<Item>, id: string): real {
    if items == [] then 0.0
    else if items[|items| - 1].id == id then items[|items| - 1].score
    else LastScore(items[..|items| - 1], id)
  }

  ghost function KeywordPart(fts: seq<Item>, r: Range, id: string): real {
    if HasId(fts, id) then Normalized(r, LastScore(fts, id)) else 0.0
  }

  function Blend(alpha: real, keyword: real, vector: real): real { (1.0 - alpha) * keyword + alpha * vector }

  /** `alpha` weighs the vector score and 1 - alpha the keyword score. */
  ghost function Blended(fts: seq<Item>, vec: seq<Item>, r: Range, alpha: real, id: string): real {
    Blend(alpha, KeywordPart(fts, r, id), LastScore(vec, id))
  }

  /** The last entry of an id has its score; what is not listed has 0. */
  lemma {:induction false} LastScoreIs(items: seq<Item>, id: string, i: nat)
    ensures !HasId(items, id) ==> LastScore(items, id) == 0.0
    ensures i < |items| && items[i].id == id && (forall j | i < j < |items| :: items[j].id != id) ==>
              LastScore(items, id) == items[i].score
  {
    if items != [] {
      var front := items[..|items| - 1];
      LastScoreIs(front, id, i);
      if HasId(front, id) {
        var j :| 0 <= j < |front| && front[j].id == id;
        assert items[j].id == id;
      }
    }
  }

  /** What a keyword hit scores in the blend: its place between the least and the greatest score, and the
      whole keyword weight, if positive, where all scores are equal, as with a single hit. */
  lemma BlendedIs(fts: seq<Item>, vec: seq<Item>, r: Range, alpha: real, i: nat)
    requires IsRange(r, fts) && i < |fts| && forall j | i < j < |fts| :: fts[j].id != fts[i].id
    ensures var x, score := fts[i].score, Blended(fts, vec, r, alpha, fts[i].id) - alpha * LastScore(vec, fts[i].id);
            && (r.min < r.max ==> score == (1.0 - alpha) * ((x - r.min) / (r.max - r.min)))
            && ((forall j | 0 <= j < |fts| :: fts[j].score == x) ==>
                  score == if x > 0.0 then 1.0 - alpha else 0.0)
  {
    LastScoreIs(fts, fts[i].id, i);
    assert HasId(fts, fts[i].id);
    var keyword := KeywordPart(fts, r, fts[i].id);
    assert keyword == Normalized(r, fts[i].score);
    assert Blended(fts, vec, r, alpha, fts[i].id) - alpha * LastScore(vec, fts[i].id) == (1.0 - alpha) * keyword;
    if forall j | 0 <= j < |fts| :: fts[j].score == fts[i].score {
      assert r.max == r.min == fts[i].score;
      assert keyword == if fts[i].score > 0.0 then 1.0 else 0.0;
    }
  }

  /** What only the vectors found scores its vector part. */
  lemma VectorOnlyIs(fts: seq<Item>, vec: seq<Item>, r: Range, alpha: real, i: nat)
    requires i < |vec| && !HasId(fts, vec[i].id) && forall j | i < j < |vec| :: vec[j].id != vec[i].id
    ensures Blended(fts, vec, r, alpha, vec[i].id) == alpha * vec[i].score
  {
    LastScoreIs(vec, vec[i].id, i);
  }

  ghost predicate Parts(combined: map<string, (real, real)>, fts: seq<Item>, vec: seq<Item>, r: Range) {
    forall id :: (id in combined <==> HasId(fts, id) || HasId(vec, id))
              && (id in combined ==> combined[id] == (KeywordPart(fts, r, id), LastScore(vec, id)))
  }

  lemma LastOneMore(items: seq<Item>, i: nat, id: string)
    requires i < |items|
    ensures LastScore(items[..i + 1], id) == if items[i].id == id then items[i].score else LastScore(items[..i], id)
    ensures HasId(items[..i + 1], id) <==> HasId(items[..i], id) || items[i].id == id
  {
    assert items[..i + 1][..i] == items[..i];
    if HasId(items[..i], id) {
      var j :| 0 <= j < i && items[..i][j].id == id;
      assert items[..i + 1][j].id == id;
    }
    assert items[..i + 1][i] == items[i];
  }

  method KeywordScores(fts: seq<Item>, r: Range) returns (combined: map<string, (real, real)>)
    ensures Parts(combined, fts, [], r)
  {
    combined := map[];
    for i := 0 to |fts|
      invariant Parts(combined, fts[..i], [], r)
    {
      forall id {
        LastOneMore(fts, i, id);
      }
      combined := combined[fts[i].id := (Normalized(r, fts[i].score), 0.0)];
    }
    assert fts[..|fts|] == fts;
  }

  method AddVectorScores(combined0: map<string, (real, real)>, ghost fts: seq<Item>, vec: seq<Item>, ghost r: Range)
    returns (combined: map<string, (real, real)>)
    requires Parts(combined0, fts, [], r)
    ensures Parts(combined, fts, vec, r)
  {
    combined := combined0;
    assert vec[..0] == [];
    for i := 0 to |vec|
      invariant Parts(combined, fts, vec[..i], r)
    {
      VectorOneMore(combined, fts, vec, i, r);
      var id := vec[i].id;
      combined := combined[id := (if id in combined then combined[id].0 else 0.0, vec[i].score)];
    }
    assert vec[..|vec|] == vec;
  }

  lemma VectorOneMore(combined: map<string, (real, real)>, fts: seq<Item>, vec: seq<Item>, i: nat, r: Range)
    requires i < |vec| && Parts(combined, fts, vec[..i], r)
    ensures var id := vec[i].id;
            Parts(combined[id := (if id in combined then combined[id].0 else 0.0, vec[i].score)], fts, vec[..i + 1], r)
  {
    var v := vec[i].id;
    var more := combined[v := (if v in combined then combined[v].0 else 0.0, vec[i].score)];
    forall id
      ensures id in more <==> HasId(fts, id) || HasId(vec[..i + 1], id)
      ensures id in more ==> more[id] == (KeywordPart(fts, r, id), LastScore(vec[..i + 1], id))
    {
      LastOneMore(vec, i, id);
      assert id in combined <==> HasId(fts, id) || HasId(vec[..i], id);
    }
  }

  /** Both lists blended, best first. */
  method MergeAlpha(fts: seq<Item>, vec: seq<Item>, alpha: real, topK: int) returns (items: seq<Item>)
    ensures exists r :: IsRange(r, fts) && TopOf(items, BlendedMap(fts, vec, r, alpha), topK)
  {
    var r := ScoreRange(fts);
    var combined := KeywordScores(fts, r);
    combined := AddVectorScores(combined, fts, vec, r);
    var blended := BlendAll(combined, alpha);
    AllBlended(combined, fts, vec, r, alpha);
    items := RankAndCut(blended, topK);
  }

  function BlendAll(combined: map<string, (real, real)>, alpha: real): map<string, real> {
    map id | id in combined :: Blend(alpha, combined[id].0, combined[id].1)
  }

  /** The blended scores of all ids of either list. */
  ghost function BlendedMap(fts: seq<Item>, vec: seq<Item>, r: Range, alpha: real): map<string, real> {
    map id | id in (set x | x in fts :: x.id) + (set x | x in vec :: x.id) :: Blended(fts, vec, r, alpha, id)
  }

  lemma AllBlended(combined: map<string, (real, real)>, fts: seq<Item>, vec: seq<Item>, r: Range, alpha: real)
    requires Parts(combined, fts, vec, r)
    ensures BlendAll(combined, alpha) == BlendedMap(fts, vec, r, alpha)
  {
    forall id
      ensures id in combined <==> id in BlendedMap(fts, vec, r, alpha)
      ensures id in combined ==> combined[id] == (KeywordPart(fts, r, id), LastScore(vec, id))
    {
      assert id in combined <==> HasId(fts, id) || HasId(vec, id);
    }
  }

  ghost predicate Found(fts: seq<Item>, vec: seq<Item>, id: string) { HasId(fts, id) || HasId(vec, id) }

  /** At weight 1, the opposite end of what the comment on the merge says, the order is that of the
      vector scores, and nothing left out has a better one than what is in. */
  lemma WeightOneRanks(items: seq<Item>, fts: seq<Item>, vec: seq<Item>, r: Range, topK: int)
    requires TopOf(items, BlendedMap(fts, vec, r, 1.0), topK)
    ensures forall i, j | 0 <= i < j < |items| :: LastScore(vec, items[i].id) >= LastScore(vec, items[j].id)
    ensures forall id, i | Found(fts, vec, id) && !HasId(items, id) && 0 <= i < |items| ::
              LastScore(vec, id) <= LastScore(vec, items[i].id)
  {
    var scores := BlendedMap(fts, vec, r, 1.0);
    forall id ensures Found(fts, vec, id) <==> id in scores {}
    forall id | id in scores ensures scores[id] == LastScore(vec, id) {}
  }

  lemma {:induction false} LastInRange(fts: seq<Item>, r: Range, id: string)
    requires HasId(fts, id) && forall i | 0 <= i < |fts| :: r.min <= fts[i].score <= r.max
    ensures r.min <= LastScore(fts, id) <= r.max
  {
    if fts[|fts| - 1].id != id {
      var i :| 0 <= i < |fts| && fts[i].id == id;
      assert fts[..|fts| - 1][i].id == id;
      LastInRange(fts[..|fts| - 1], r, id);
    }
  }

  /** A document at least as good by its keyword part as one found by keywords above the least score
      is found by keywords too, with a score at least as high. */
  lemma KeywordPartOrders(fts: seq<Item>, r: Range, x: string, y: string)
    requires IsRange(r, fts) && HasId(fts, y) && LastScore(fts, y) > r.min
    requires KeywordPart(fts, r, x) >= KeywordPart(fts, r, y)
    ensures HasId(fts, x) && LastScore(fts, x) >= LastScore(fts, y)
  {
    LastInRange(fts, r, y);
    NormalizedKeepsOrder(r, r.min, LastScore(fts, y));
    Quotients(0.0, 0.0, r.max - r.min);
    if HasId(fts, x) {
      NormalizedKeepsOrder(r, LastScore(fts, x), LastScore(fts, y));
    }
  }

  /** At weight 0 a document found by keywords, above their least score, has before it only documents
      found by keywords with scores at least as high; and when it is left out, so are all that are in. */
  lemma WeightZeroRanks(items: seq<Item>, fts: seq<Item>, vec: seq<Item>, r: Range, topK: int)
    requires IsRange(r, fts) && TopOf(items, BlendedMap(fts, vec, r, 0.0), topK)
    ensures forall i, j | 0 <= i < j < |items| && HasId(fts, items[j].id) && LastScore(fts, items[j].id) > r.min ::
              HasId(fts, items[i].id) && LastScore(fts, items[i].id) >= LastScore(fts, items[j].id)
    ensures forall id, i | HasId(fts, id) && LastScore(fts, id) > r.min && !HasId(items, id) && 0 <= i < |items| ::
              HasId(fts, items[i].id) && LastScore(fts, items[i].id) >= LastScore(fts, id)
  {
    var scores := BlendedMap(fts, vec, r, 0.0);
    forall id | id in scores ensures scores[id] == KeywordPart(fts, r, id) {}
    forall i, j | 0 <= i < j < |items| && HasId(fts, items[j].id) && LastScore(fts, items[j].id) > r.min
      ensures HasId(fts, items[i].id) && LastScore(fts, items[i].id) >= LastScore(fts, items[j].id)
    {
      assert items[i].score >= items[j].score;
      KeywordPartOrders(fts, r, items[i].id, items[j].id);
    }
    forall id, i | HasId(fts, id) && LastScore(fts, id) > r.min && !HasId(items, id) && 0 <= i < |items|
      ensures HasId(fts, items[i].id) && LastScore(fts, items[i].id) >= LastScore(fts, id)
    {
      assert id in scores;
      KeywordPartOrders(fts, r, items[i].id, id);
    }
  }

  /** A heavier weight favours the document with the better vector score:
      once it leads it leads by every heavier weight. */
  lemma HeavierFavoursVector(fts: seq<Item>, vec: seq<Item>, r: Range, alpha: real, beta: real, x: string, y: string)
    requires 0.0 <= alpha < beta <= 1.0 && LastScore(vec, x) >= LastScore(vec, y)
    requires Blended(fts, vec, r, alpha, x) >= Blended(fts, vec, r, alpha, y)
    ensures Blended(fts, vec, r, beta, x) >= Blended(fts, vec, r, beta, y)
  {
    Lead(KeywordPart(fts, r, x), KeywordPart(fts, r, y), LastScore(vec, x), LastScore(vec, y), alpha, beta);
  }

  lemma Lead(kx: real, ky: real, vx: real, vy: real, alpha: real, beta: real)
    requires 0.0 <= alpha < beta <= 1.0 && vx >= vy
    requires Blend(alpha, kx, vx) >= Blend(alpha, ky, vy)
    ensures Blend(beta, kx, vx) >= Blend(beta, ky, vy)
  {
    var k, v := kx - ky, vx - vy;
    Difference(kx, ky, vx, vy, alpha);
    Difference(kx, ky, vx, vy, beta);
    Trade(k, v, alpha, beta);
  }

  lemma Trade(k: real, v: real, alpha: real, beta: real)
    requires 0.0 <= alpha < beta <= 1.0 && v >= 0.0 && (1.0 - alpha) * k + alpha * v >= 0.0
    ensures (1.0 - beta) * k + beta * v >= 0.0
  {
    Grows(alpha, beta, v);
    if k < 0.0 {
      Grows(1.0 - beta, 1.0 - alpha, -k);
      Negated(1.0 - beta, k);
      Negated(1.0 - alpha, k);
    } else {
      NotNegative(1.0 - beta, k);
      NotNegative(beta, v);
    }
  }

  lemma Difference(kx: real, ky: real, vx: real, vy: real, a: real)
    ensures Blend(a, kx, vx) - Blend(a, ky, vy) == (1.0 - a) * (kx - ky) + a * (vx - vy)
  {
  }

  lemma Grows(a: real, b: real, x: real)
    requires a <= b && x >= 0.0
    ensures a * x <= b * x
  {
  }

  lemma NotNegative(a: real, x: real)
    requires a >= 0.0 && x >= 0.0
    ensures a * x >= 0.0
  {
  }

  lemma Negated(a: real, x: real)
    ensures a * -x == -(a * x)
  {
  }
}

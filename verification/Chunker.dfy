/** Splitting text into chunks of bounded size (services/mddbd/chunker.go). A string is a
    sequence of bytes; white space is ASCII white space. */
module Chunker {

  predicate Space(c: char) {
    c == ' ' || c == '\t' || c == '\n' || c == '\r' || c == '\U{0B}' || c == '\U{0C}'
  }

  // ---- the ink of a text -------------------------------------------------------------------------

  /** The bytes that are not white space, in order. */
  function Ink(s: string): string {
    if s == "" then "" else (if Space(s[0]) then "" else [s[0]]) + Ink(s[1..])
  }

  lemma {:induction false} InkOf(a: string, b: string)
    ensures Ink(a + b) == Ink(a) + Ink(b)
  {
    if a == "" {
      assert a + b == b;
    } else {
      assert (a + b)[1..] == a[1..] + b;
      InkOf(a[1..], b);
    }
  }

  /** The ink of several pieces, one after the other. */
  function InkAll(ss: seq<string>): string {
    if ss == [] then "" else Ink(ss[0]) + InkAll(ss[1..])
  }

  lemma {:induction false} InkAllOf(a: seq<string>, b: seq<string>)
    ensures InkAll(a + b) == InkAll(a) + InkAll(b)
  {
    if a == [] {
      assert a + b == b;
    } else {
      assert (a + b)[1..] == a[1..] + b;
      InkAllOf(a[1..], b);
    }
  }

  lemma InkOneMore(ss: seq<string>, s: string)
    ensures InkAll(ss + [s]) == InkAll(ss) + Ink(s)
  {
    InkAllOf(ss, [s]);
    assert InkAll([s]) == Ink(s) + InkAll([]);
  }

  // ---- trimming -----------------------------------------------------------------------------------

  predicate Trimmed(s: string) { s == "" || (!Space(s[0]) && !Space(s[|s| - 1])) }

  function TrimLeft(s: string): (r: string)
    ensures |r| <= |s| && (r != "" ==> !Space(r[0]) && s != "" && r[|r| - 1] == s[|s| - 1])
    ensures Ink(r) == Ink(s)
    ensures s != "" && !Space(s[0]) ==> r == s
  {
    if s != "" && Space(s[0]) then TrimLeft(s[1..]) else s
  }

  function TrimRight(s: string): (r: string)
    ensures r <= s && (r != "" ==> !Space(r[|r| - 1]))
    ensures Ink(r) == Ink(s)
    ensures s != "" && !Space(s[|s| - 1]) ==> r == s
    decreases |s|
  {
    if s != "" && Space(s[|s| - 1]) then
      InkOf(s[..|s| - 1], s[|s| - 1..]);
      assert s == s[..|s| - 1] + s[|s| - 1..];
      TrimRight(s[..|s| - 1])
    else s
  }

  function Trim(s: string): (r: string)
    ensures Trimmed(r) && |r| <= |s| && Ink(r) == Ink(s)
    ensures Trimmed(s) ==> r == s
  {
    TrimRight(TrimLeft(s))
  }

  /** The six ASCII white-space bytes. */
  const WHITE := " \t\n\U{0B}\U{0C}\r"

  ghost predicate Blank(s: string) { forall i | 0 <= i < |s| :: s[i] in WHITE }

  lemma {:induction false} TrimLeftIs(s: string) returns (before: string)
    ensures Blank(before) && s == before + TrimLeft(s)
  {
    before := "";
    if s != "" && Space(s[0]) {
      var more := TrimLeftIs(s[1..]);
      before := [s[0]] + more;
      assert s == [s[0]] + s[1..];
    }
  }

  lemma {:induction false} TrimRightIs(s: string) returns (after: string)
    ensures Blank(after) && s == TrimRight(s) + after
    decreases |s|
  {
    after := "";
    if s != "" && Space(s[|s| - 1]) {
      var front, last := s[..|s| - 1], s[|s| - 1];
      var more := TrimRightIs(front);
      after := more + [last];
      assert s == front + [last] == (TrimRight(front) + more) + [last];
    }
  }

  /** Trimming takes white space off the two ends and leaves what is between untouched. */
  lemma TrimIs(s: string)
    ensures exists before, after :: Blank(before) && Blank(after) && s == before + Trim(s) + after
    ensures Trim(s) != "" ==> Trim(s)[0] !in WHITE && Trim(s)[|Trim(s)| - 1] !in WHITE
  {
    var before := TrimLeftIs(s);
    var after := TrimRightIs(TrimLeft(s));
    assert s == before + Trim(s) + after;
  }

  /** What begins with ink is not trimmed away. */
  lemma TrimKeepsHead(s: string)
    requires s != "" && !Space(s[0])
    ensures Trim(s) != ""
  {
    assert Ink(s) != "";
  }

  // ---- chunks ----------------------------------------------------------------------------------------

  predicate Fits(c: string, maxChars: nat) { 0 < |c| <= maxChars && Trimmed(c) }

  predicate AllFit(chunks: seq<string>, maxChars: nat) { forall c | c in chunks :: Fits(c, maxChars) }

  /** Where to cut: the last space in the upper half of the limit, or the limit itself. */
  method CutPoint(text: string, maxChars: nat) returns (splitAt: nat)
    requires 0 < maxChars < |text|
    ensures maxChars / 2 < splitAt <= maxChars
    ensures splitAt < maxChars ==> text[splitAt] == ' '
    ensures forall j | maxChars / 2 < j < maxChars && text[j] == ' ' :: j <= splitAt < maxChars
  {
    splitAt := maxChars;
    var i: int := maxChars - 1;
    while i > maxChars / 2
      invariant maxChars / 2 <= i < maxChars || i == maxChars - 1
      invariant forall j | i < j < maxChars :: text[j] != ' '
    {
      if text[i] == ' ' {
        return i;
      }
      i := i - 1;
    }
  }

  /** The cut of a text that is too long: the last space in the upper half of the limit, or the limit. */
  ghost predicate IsCut(text: string, maxChars: nat, c: nat)
    requires |text| > maxChars
  {
    && maxChars / 2 < c <= maxChars && (c < maxChars ==> text[c] == ' ')
    && forall j | maxChars / 2 < j < maxChars && text[j] == ' ' :: j <= c < maxChars
  }

  /** Looking for it downwards from the limit. */
  function CutBelow(text: string, maxChars: nat, i: nat): (c: nat)
    requires maxChars / 2 <= i < maxChars < |text| && forall j | i < j < maxChars :: text[j] != ' '
    ensures IsCut(text, maxChars, c)
  {
    if i == maxChars / 2 then maxChars else if text[i] == ' ' then i else CutBelow(text, maxChars, i - 1)
  }

  function CutOf(text: string, maxChars: nat): (c: nat)
    requires 0 < maxChars < |text|
    ensures IsCut(text, maxChars, c)
  {
    CutBelow(text, maxChars, maxChars - 1)
  }

  /** The pieces of a text cut again and again until the rest fits. */
  ghost predicate HardPieces(text: string, maxChars: nat, chunks: seq<string>)
    requires maxChars >= 1
    decreases |text|
  {
    if |text| <= maxChars then chunks == if text == "" then [] else [text]
    else
      var c := CutOf(text, maxChars);
      chunks != [] && chunks[0] == Trim(text[..c]) && HardPieces(Trim(text[c..]), maxChars, chunks[1..])
  }

  lemma CutKeepsInk(text: string, c: nat)
    requires c <= |text|
    ensures Ink(Trim(text[..c])) + Ink(Trim(text[c..])) == Ink(text)
  {
    assert text == text[..c] + text[c..];
    InkOf(text[..c], text[c..]);
  }

  lemma CutFits(text: string, c: nat, maxChars: nat)
    requires 0 < c <= maxChars && c <= |text| && Trimmed(text)
    ensures Fits(Trim(text[..c]), maxChars)
  {
    TrimKeepsHead(text[..c]);
  }

  /** They hold the ink of the text, and those of a trimmed text fit. */
  lemma {:induction false} HardPiecesFit(text: string, maxChars: nat, chunks: seq<string>)
    requires maxChars >= 1 && HardPieces(text, maxChars, chunks)
    ensures InkAll(chunks) == Ink(text) && (Trimmed(text) ==> AllFit(chunks, maxChars))
    decreases |text|
  {
    if |text| > maxChars {
      var c, rest := CutOf(text, maxChars), chunks[1..];
      HardPiecesFit(Trim(text[c..]), maxChars, rest);
      CutKeepsInk(text, c);
      if Trimmed(text) {
        CutFits(text, c, maxChars);
        assert forall x | x in chunks :: x == chunks[0] || x in rest;
      }
    } else if text != "" {
      assert InkAll([text]) == Ink(text) + InkAll([]);
    }
  }

  /** A text is cut in one way only. */
  lemma {:induction false} HardPiecesOnce(text: string, maxChars: nat, a: seq<string>, b: seq<string>)
    requires maxChars >= 1 && HardPieces(text, maxChars, a) && HardPieces(text, maxChars, b)
    ensures a == b
    decreases |text|
  {
    if |text| > maxChars {
      HardPiecesOnce(Trim(text[CutOf(text, maxChars)..]), maxChars, a[1..], b[1..]);
      assert a == [a[0]] + a[1..] && b == [b[0]] + b[1..];
    }
  }

  /** Whatever is cut out of `text` comes after `chunks` in what is cut out of `text0`. */
  ghost predicate CutSoFar(text0: string, maxChars: nat, chunks: seq<string>, text: string)
    requires maxChars >= 1
  {
    forall rest :: HardPieces(text, maxChars, rest) ==> HardPieces(text0, maxChars, chunks + rest)
  }

  lemma CutOnce(text0: string, maxChars: nat, chunks: seq<string>, text: string, c: nat)
    requires maxChars >= 1 && CutSoFar(text0, maxChars, chunks, text) && |text| > maxChars
    requires c == CutOf(text, maxChars)
    ensures CutSoFar(text0, maxChars, chunks + [Trim(text[..c])], Trim(text[c..]))
  {
    var head := Trim(text[..c]);
    forall rest | HardPieces(Trim(text[c..]), maxChars, rest)
      ensures HardPieces(text0, maxChars, chunks + [head] + rest)
    {
      var more := [head] + rest;
      assert more[0] == head && more[1..] == rest;
      assert HardPieces(text, maxChars, more);
      assert chunks + [head] + rest == chunks + more;
    }
  }

  /** The last resort, for any limit: it ends, keeps the ink, and from a trimmed text makes
      chunks that fit; every cut is at the last space of the upper half of the limit, if it has one. */
  method HardSplit(text0: string, maxChars: nat) returns (chunks: seq<string>)
    requires maxChars >= 1
    ensures InkAll(chunks) == Ink(text0)
    ensures Trimmed(text0) ==> AllFit(chunks, maxChars)
    ensures HardPieces(text0, maxChars, chunks)
  {
    var text := text0;
    chunks := [];
    assert forall rest: seq<string> :: [] + rest == rest;
    while |text| > maxChars
      invariant CutSoFar(text0, maxChars, chunks, text)
      decreases |text|
    {
      var splitAt := CutPoint(text, maxChars);
      assert splitAt == CutOf(text, maxChars);
      CutOnce(text0, maxChars, chunks, text, splitAt);
      chunks := chunks + [Trim(text[..splitAt])];
      text := Trim(text[splitAt..]);
    }
    ghost var rest := if text == "" then [] else [text];
    assert HardPieces(text, maxChars, rest);
    if |text| > 0 {
      chunks := chunks + [text];
    } else {
      assert chunks + [] == chunks;
    }
    HardPiecesFit(text0, maxChars, chunks);
  }

  predicate Stop(c: char) { c == '.' || c == '!' || c == '?' }

  /** A stop that a space follows. */
  predicate EndsSentence(text: string, i: int) { 0 <= i < |text| - 1 && Stop(text[i]) && text[i + 1] == ' ' }

  /** The first of them, or the end of the text. */
  function FirstEnd(text: string, from: nat): (k: nat)
    requires from <= |text|
    ensures from <= k <= |text| && (k < |text| ==> EndsSentence(text, k))
    ensures forall j | from <= j < k :: !EndsSentence(text, j)
    decreases |text| - from
  {
    if from == |text| || EndsSentence(text, from) then from else FirstEnd(text, from + 1)
  }

  /** The pieces between these ends; the spaces after them go. */
  function Sentences(text: string): seq<string>
    decreases |text|
  {
    var k := FirstEnd(text, 0);
    if text == "" then [] else if k == |text| then [text] else [text[..k + 1]] + Sentences(text[k + 2..])
  }

  function Joined(ss: seq<string>, sep: string): string {
    if ss == [] then "" else if |ss| == 1 then ss[0] else ss[0] + sep + Joined(ss[1..], sep)
  }

  /** Joined by single spaces they are the text, but for a space at its end. */
  lemma {:induction false} SentencesJoin(text: string)
    ensures text == Joined(Sentences(text), " ") || text == Joined(Sentences(text), " ") + " "
    decreases |text|
  {
    var k := FirstEnd(text, 0);
    if text != "" && k < |text| {
      var first, rest := text[..k + 1], text[k + 2..];
      SentencesJoin(rest);
      assert text == first + " " + rest;
      JoinedRest(first, rest, Sentences(rest));
    }
  }

  lemma JoinedRest(first: string, rest: string, ss: seq<string>)
    requires rest == Joined(ss, " ") || rest == Joined(ss, " ") + " "
    requires ss == [] ==> rest == ""
    ensures var text := first + " " + rest;
            text == Joined([first] + ss, " ") || text == Joined([first] + ss, " ") + " "
  {
    if ss == [] {
      assert [first] + ss == [first];
    } else {
      JoinNext(first, ss);
      var j := Joined(ss, " ");
      assert first + " " + (j + " ") == (first + " " + j) + " ";
    }
  }

  lemma JoinNext(first: string, rest: seq<string>)
    requires rest != []
    ensures Joined([first] + rest, " ") == first + " " + Joined(rest, " ")
  {
    assert ([first] + rest)[1..] == rest;
  }

  ghost predicate Ended(s: string) { s != "" && s[|s| - 1] in ".!?" }

  ghost predicate Unbroken(s: string) { s != "" && forall j | 0 <= j < |s| - 1 && s[j] in ".!?" :: s[j + 1] != ' ' }

  /** All but the last end in a stop, and within none a stop stands before a space. */
  lemma {:induction false} SentencesEnd(text: string)
    ensures forall s | s in Sentences(text) :: Unbroken(s)
    ensures forall i | 0 <= i < |Sentences(text)| - 1 :: Ended(Sentences(text)[i])
    decreases |text|
  {
    var k := FirstEnd(text, 0);
    if text != "" && k < |text| {
      SentencesEnd(text[k + 2..]);
      FirstIsUnbroken(text, k);
      EndsWithFirst(text[..k + 1], Sentences(text[k + 2..]));
    } else if text != "" {
      forall j | 0 <= j < |text| - 1 && text[j] in ".!?" ensures text[j + 1] != ' ' {
        assert !EndsSentence(text, j);
      }
      assert Sentences(text) == [text];
    }
  }

  lemma EndsWithFirst(first: string, rest: seq<string>)
    requires Unbroken(first) && Ended(first) && forall s | s in rest :: Unbroken(s)
    requires forall i | 0 <= i < |rest| - 1 :: Ended(rest[i])
    ensures var ss := [first] + rest;
            (forall s | s in ss :: Unbroken(s)) && forall i | 0 <= i < |ss| - 1 :: Ended(ss[i])
  {
  }

  lemma FirstIsUnbroken(text: string, k: nat)
    requires EndsSentence(text, k) && forall j | 0 <= j < k :: !EndsSentence(text, j)
    ensures Unbroken(text[..k + 1]) && Ended(text[..k + 1])
  {
    var first := text[..k + 1];
    forall j | 0 <= j < |first| - 1 && first[j] in ".!?" ensures first[j + 1] != ' ' {
      assert !EndsSentence(text, j);
    }
  }

  lemma {:induction false} SentencesInk(text: string)
    ensures InkAll(Sentences(text)) == Ink(text)
    decreases |text|
  {
    var k := FirstEnd(text, 0);
    if text != "" {
      if k < |text| {
        SentencesInk(text[k + 2..]);
        assert text == (text[..k + 1] + " ") + text[k + 2..];
        InkOf(text[..k + 1] + " ", text[k + 2..]);
        InkOf(text[..k + 1], " ");
        assert Ink(" ") == Ink(" "[1..]);
        assert Sentences(text)[1..] == Sentences(text[k + 2..]);
      } else {
        assert InkAll([text]) == Ink(text) + InkAll([]);
      }
    }
  }

  /** The loop over the bytes finds the sentences. */
  method SplitSentences(text: string) returns (sentences: seq<string>)
    ensures sentences == Sentences(text)
  {
    sentences := [];
    var start := 0;
    var i := 0;
    assert text[0..] == text;
    while i < |text| - 1
      invariant start <= |text| && start <= i + 1 && (i < start ==> text[i] == ' ')
      invariant FoundSoFar(text, sentences, start)
      invariant NoneEnds(text, start, i)
      decreases |text| - i
    {
      if Stop(text[i]) && text[i + 1] == ' ' {
        NextSentence(text, sentences, start, i);
        sentences := sentences + [text[start..i + 1]];
        start := i + 2;
      }
      i := i + 1;
    }
    if start < |text| {
      LastSentence(text, sentences, start);
      sentences := sentences + [text[start..]];
    } else {
      assert text[start..] == "";
    }
  }

  /** The sentences found, and those of the rest. */
  ghost predicate FoundSoFar(text: string, sentences: seq<string>, start: nat)
    requires start <= |text|
  {
    sentences + Sentences(text[start..]) == Sentences(text)
  }

  ghost predicate NoneEnds(text: string, start: nat, i: int) { forall j | start <= j < i :: !EndsSentence(text, j) }

  lemma FirstSentence(text: string, k: nat)
    requires EndsSentence(text, k) && NoneEnds(text, 0, k)
    ensures Sentences(text) == [text[..k + 1]] + Sentences(text[k + 2..])
  {
    assert FirstEnd(text, 0) == k;
  }

  lemma SameEnds(text: string, start: nat, i: nat)
    requires start <= i && EndsSentence(text, i) && NoneEnds(text, start, i)
    ensures EndsSentence(text[start..], i - start) && NoneEnds(text[start..], 0, i - start)
    ensures text[start..][..i - start + 1] == text[start..i + 1]
  {
    var rest := text[start..];
    forall j | 0 <= j < i - start ensures !EndsSentence(rest, j) {
      assert EndsSentence(rest, j) ==> EndsSentence(text, start + j);
    }
  }

  lemma NextSentence(text: string, before: seq<string>, start: nat, i: nat)
    requires start <= i && EndsSentence(text, i) && NoneEnds(text, start, i) && FoundSoFar(text, before, start)
    ensures FoundSoFar(text, before + [text[start..i + 1]], i + 2)
  {
    var rest := text[start..];
    SameEnds(text, start, i);
    FirstSentence(rest, i - start);
    assert rest[i - start + 2..] == text[i + 2..];
    Regroup(before, [text[start..i + 1]], Sentences(text[i + 2..]));
  }

  lemma Regroup(a: seq<string>, b: seq<string>, c: seq<string>)
    ensures a + (b + c) == (a + b) + c
  {
  }

  lemma LastSentence(text: string, before: seq<string>, start: nat)
    requires start < |text| && NoneEnds(text, start, |text| - 1) && FoundSoFar(text, before, start)
    ensures before + [text[start..]] == Sentences(text)
  {
    var rest := text[start..];
    forall j | 0 <= j < |rest| ensures !EndsSentence(rest, j) {
      assert EndsSentence(rest, j) ==> EndsSentence(text, start + j);
    }
  }

  // ---- packing pieces into chunks -----------------------------------------------------------------------

  /** A chunk of pieces that stand together, or the chunks a piece is cut into that is too long. */
  datatype Block = Row(pieces: seq<string>) | Long(piece: string, parts: seq<string>)

  function PiecesOf(b: Block): seq<string> { if b.Row? then b.pieces else [b.piece] }

  function ChunksOf(b: Block, sep: string): seq<string> { if b.Row? then [Joined(b.pieces, sep)] else b.parts }

  function AllPieces(bs: seq<Block>): seq<string> { if bs == [] then [] else PiecesOf(bs[0]) + AllPieces(bs[1..]) }

  function AllChunks(bs: seq<Block>, sep: string): seq<string> {
    if bs == [] then [] else ChunksOf(bs[0], sep) + AllChunks(bs[1..], sep)
  }

  /** A row has pieces, and they fit together; any other piece is too long. */
  ghost predicate BlockFits(b: Block, sep: string, maxChars: nat) {
    && (forall p | p in PiecesOf(b) :: p != "" && Trimmed(p))
    && if b.Row? then b.pieces != [] && |Joined(b.pieces, sep)| <= maxChars else |b.piece| > maxChars
  }

  /** The first piece of the second row would not have fitted into the first. */
  ghost predicate Full(a: Block, b: Block, sep: string, maxChars: nat) {
    a.Row? && b.Row? && b.pieces != [] ==> |Joined(a.pieces, sep)| + |sep| + |b.pieces[0]| > maxChars
  }

  ghost predicate Packs(bs: seq<Block>, sep: string, maxChars: nat) {
    && (forall b | b in bs :: BlockFits(b, sep, maxChars))
    && forall i | 0 <= i < |bs| - 1 :: Full(bs[i], bs[i + 1], sep, maxChars)
  }

  /** The pieces, in order, packed into chunks: a new chunk begins only where the next piece does not fit. */
  ghost predicate Packing(bs: seq<Block>, pieces: seq<string>, sep: string, maxChars: nat, chunks: seq<string>) {
    Packs(bs, sep, maxChars) && AllPieces(bs) == pieces && AllChunks(bs, sep) == chunks
  }

  lemma {:induction false} AllPiecesOf(a: seq<Block>, b: seq<Block>)
    ensures AllPieces(a + b) == AllPieces(a) + AllPieces(b)
  {
    if a == [] {
      assert a + b == b;
    } else {
      assert (a + b)[1..] == a[1..] + b;
      AllPiecesOf(a[1..], b);
    }
  }

  lemma {:induction false} AllChunksOf(a: seq<Block>, b: seq<Block>, sep: string)
    ensures AllChunks(a + b, sep) == AllChunks(a, sep) + AllChunks(b, sep)
  {
    if a == [] {
      assert a + b == b;
    } else {
      assert (a + b)[1..] == a[1..] + b;
      AllChunksOf(a[1..], b, sep);
    }
  }

  lemma OneBlock(b: Block, sep: string)
    ensures AllPieces([b]) == PiecesOf(b) && AllChunks([b], sep) == ChunksOf(b, sep)
  {
    assert [b][1..] == [];
    assert PiecesOf(b) + [] == PiecesOf(b) && ChunksOf(b, sep) + [] == ChunksOf(b, sep);
  }

  lemma {:induction false} JoinedMore(ss: seq<string>, sep: string, s: string)
    requires ss != []
    ensures Joined(ss + [s], sep) == Joined(ss, sep) + sep + s
  {
    if |ss| == 1 {
      assert (ss + [s])[1..] == [s];
    } else {
      assert (ss + [s])[1..] == ss[1..] + [s];
      JoinedMore(ss[1..], sep, s);
      assert ss[0] + sep + (Joined(ss[1..], sep) + sep + s) == ss[0] + sep + Joined(ss[1..], sep) + sep + s;
    }
  }

  /** Pieces joined begin and end with ink. */
  lemma {:induction false} JoinedTrimmed(ss: seq<string>, sep: string)
    requires ss != [] && forall s | s in ss :: s != "" && Trimmed(s)
    ensures Joined(ss, sep) != "" && Trimmed(Joined(ss, sep))
  {
    assert ss[0] in ss && forall s | s in ss[1..] :: s in ss;
    if |ss| > 1 {
      JoinedTrimmed(ss[1..], sep);
      var rest := Joined(ss[1..], sep);
      var whole := ss[0] + sep + rest;
      assert whole[0] == ss[0][0] && whole[|whole| - 1] == rest[|rest| - 1];
    }
  }

  lemma {:induction false} JoinedInk(ss: seq<string>, sep: string)
    requires Ink(sep) == ""
    ensures Ink(Joined(ss, sep)) == InkAll(ss)
  {
    if |ss| == 1 {
      assert InkAll(ss) == Ink(ss[0]) + InkAll([]);
    } else if |ss| > 1 {
      JoinedInk(ss[1..], sep);
      InkOf(ss[0] + sep, Joined(ss[1..], sep));
      InkOf(ss[0], sep);
    }
  }

  // ---- the loop that packs ------------------------------------------------------------------------------

  /** The finished chunks and the one being filled. */
  function WithCurrent(chunks: seq<string>, current: string): seq<string> {
    if current == "" then chunks else chunks + [current]
  }

  /** What has come so far is packed, and the last row, if any, is the chunk being filled. */
  ghost predicate Filling(bs: seq<Block>, pieces: seq<string>, sep: string, maxChars: nat, chunks: seq<string>,
                          current: string)
  {
    && Packing(bs, pieces, sep, maxChars, WithCurrent(chunks, current))
    && if bs != [] && bs[|bs| - 1].Row? then current == Joined(bs[|bs| - 1].pieces, sep) else current == ""
  }

  lemma CurrentTrimmed(bs: seq<Block>, pieces: seq<string>, sep: string, maxChars: nat, chunks: seq<string>,
                       current: string)
    requires Filling(bs, pieces, sep, maxChars, chunks, current)
    ensures Trimmed(current) && (current == "" <==> bs == [] || bs[|bs| - 1].Long?)
  {
    if bs != [] && bs[|bs| - 1].Row? {
      var last := bs[|bs| - 1];
      assert last in bs && PiecesOf(last) == last.pieces;
      JoinedTrimmed(last.pieces, sep);
    }
  }

  lemma OneMoreBlock(bs: seq<Block>, pieces: seq<string>, sep: string, maxChars: nat, chunks: seq<string>, b: Block)
    requires Packing(bs, pieces, sep, maxChars, chunks) && BlockFits(b, sep, maxChars)
    requires bs != [] ==> Full(bs[|bs| - 1], b, sep, maxChars)
    ensures Packing(bs + [b], pieces + PiecesOf(b), sep, maxChars, chunks + ChunksOf(b, sep))
  {
    AllPiecesOf(bs, [b]);
    AllChunksOf(bs, [b], sep);
    OneBlock(b, sep);
  }

  /** A piece that is too long is cut, after the chunk being filled is finished. */
  lemma LongAdded(bs: seq<Block>, pieces: seq<string>, sep: string, maxChars: nat, chunks: seq<string>,
                  current: string, piece: string, parts: seq<string>)
    requires Filling(bs, pieces, sep, maxChars, chunks, current) && Trimmed(piece) && |piece| > maxChars
    ensures Filling(bs + [Long(piece, parts)], pieces + [piece], sep, maxChars,
                    WithCurrent(chunks, current) + parts, "")
  {
    OneMoreBlock(bs, pieces, sep, maxChars, WithCurrent(chunks, current), Long(piece, parts));
  }

  /** A piece that does not fit to the chunk being filled begins the next one. */
  lemma RowBegun(bs: seq<Block>, pieces: seq<string>, sep: string, maxChars: nat, chunks: seq<string>,
                 current: string, piece: string)
    requires Filling(bs, pieces, sep, maxChars, chunks, current) && Fits(piece, maxChars)
    requires current != "" ==> |current| + |sep| + |piece| > maxChars
    ensures Filling(bs + [Row([piece])], pieces + [piece], sep, maxChars, WithCurrent(chunks, current), piece)
  {
    CurrentTrimmed(bs, pieces, sep, maxChars, chunks, current);
    OneMoreBlock(bs, pieces, sep, maxChars, WithCurrent(chunks, current), Row([piece]));
  }

  /** Before the row being filled everything is packed. */
  lemma LastRow(bs: seq<Block>, pieces: seq<string>, sep: string, maxChars: nat, chunks: seq<string>, current: string)
    requires Filling(bs, pieces, sep, maxChars, chunks, current) && bs != [] && bs[|bs| - 1].Row? && current != ""
    ensures var front, last := bs[..|bs| - 1], bs[|bs| - 1];
            && Packing(front, AllPieces(front), sep, maxChars, chunks) && pieces == AllPieces(front) + last.pieces
            && BlockFits(last, sep, maxChars) && (front != [] ==> Full(front[|front| - 1], last, sep, maxChars))
  {
    var front, last := bs[..|bs| - 1], bs[|bs| - 1];
    assert bs == front + [last] && last in bs;
    AllPiecesOf(front, [last]);
    AllChunksOf(front, [last], sep);
    OneBlock(last, sep);
    SameFront(chunks, AllChunks(front, sep), current);
    forall i | 0 <= i < |front| ensures Full(bs[i], bs[i + 1], sep, maxChars) {}
  }

  lemma SameFront(a: seq<string>, b: seq<string>, x: string)
    requires a + [x] == b + [x]
    ensures a == b
  {
    assert a == (a + [x])[..|a|] && b == (b + [x])[..|b|];
  }

  lemma GrownFits(last: Block, sep: string, maxChars: nat, piece: string)
    requires last.Row? && BlockFits(last, sep, maxChars) && Fits(piece, maxChars)
    requires |Joined(last.pieces, sep)| + |sep| + |piece| <= maxChars
    ensures BlockFits(Row(last.pieces + [piece]), sep, maxChars)
    ensures Joined(last.pieces + [piece], sep) == Joined(last.pieces, sep) + sep + piece
    ensures forall a :: Full(a, last, sep, maxChars) ==> Full(a, Row(last.pieces + [piece]), sep, maxChars)
  {
    JoinedMore(last.pieces, sep, piece);
  }

  /** A piece that fits to it joins the chunk being filled. */
  lemma RowGrown(bs: seq<Block>, pieces: seq<string>, sep: string, maxChars: nat, chunks: seq<string>,
                 current: string, piece: string)
    requires Filling(bs, pieces, sep, maxChars, chunks, current) && Fits(piece, maxChars)
    requires current != "" && |current| + |sep| + |piece| <= maxChars
    ensures bs != [] && bs[|bs| - 1].Row?
    ensures Filling(bs[..|bs| - 1] + [Row(bs[|bs| - 1].pieces + [piece])], pieces + [piece], sep, maxChars, chunks,
                    current + sep + piece)
  {
    CurrentTrimmed(bs, pieces, sep, maxChars, chunks, current);
    var front, last := bs[..|bs| - 1], bs[|bs| - 1];
    var grown := Row(last.pieces + [piece]);
    LastRow(bs, pieces, sep, maxChars, chunks, current);
    GrownFits(last, sep, maxChars, piece);
    assert front != [] ==> Full(front[|front| - 1], grown, sep, maxChars);
    OneMoreBlock(front, AllPieces(front), sep, maxChars, chunks, grown);
    Regroup(AllPieces(front), last.pieces, [piece]);
    assert (front + [grown])[|front|] == grown && Joined(grown.pieces, sep) == current + sep + piece;
  }

  /** A piece that fits joins the chunk being filled if there is room, and otherwise begins the next. */
  lemma ShortAdded(bs0: seq<Block>, pieces: seq<string>, sep: string, maxChars: nat, chunks: seq<string>,
                   current: string, piece: string) returns (bs: seq<Block>)
    requires Filling(bs0, pieces, sep, maxChars, chunks, current) && Fits(piece, maxChars)
    ensures current == "" ==> Filling(bs, pieces + [piece], sep, maxChars, chunks, piece)
    ensures current != "" && |current| + |sep| + |piece| > maxChars ==>
              Filling(bs, pieces + [piece], sep, maxChars, chunks + [current], piece)
    ensures current != "" && |current| + |sep| + |piece| <= maxChars ==>
              Filling(bs, pieces + [piece], sep, maxChars, chunks, current + sep + piece)
    ensures forall b | b in bs && b.Long? :: b in bs0
  {
    if current != "" && |current| + |sep| + |piece| <= maxChars {
      RowGrown(bs0, pieces, sep, maxChars, chunks, current, piece);
      bs := bs0[..|bs0| - 1] + [Row(bs0[|bs0| - 1].pieces + [piece])];
    } else {
      RowBegun(bs0, pieces, sep, maxChars, chunks, current, piece);
      bs := bs0 + [Row([piece])];
    }
  }

  // ---- what packing gives ----------------------------------------------------------------------------------

  /** One text stands whole in another. */
  ghost predicate Within(c: string, p: string) { exists i :: StandsAt(c, p, i) }

  ghost predicate StandsAt(c: string, p: string, i: int) { 0 <= i <= i + |p| <= |c| && c[i..i + |p|] == p }

  ghost predicate InSome(chunks: seq<string>, p: string) { exists c :: c in chunks && Within(c, p) }

  /** What is cut out of a piece fits and holds its ink. */
  ghost predicate CutWell(b: Block, maxChars: nat) {
    b.Long? ==> AllFit(b.parts, maxChars) && InkAll(b.parts) == Ink(b.piece)
  }

  /** The chunks fit and hold the ink of the pieces. */
  lemma {:induction false} PackedFit(bs: seq<Block>, sep: string, maxChars: nat)
    requires Ink(sep) == "" && forall b | b in bs :: BlockFits(b, sep, maxChars) && CutWell(b, maxChars)
    ensures AllFit(AllChunks(bs, sep), maxChars) && InkAll(AllChunks(bs, sep)) == InkAll(AllPieces(bs))
  {
    if bs != [] {
      var b := bs[0];
      assert b in bs && forall x | x in bs[1..] :: x in bs;
      PackedFit(bs[1..], sep, maxChars);
      InkAllOf(ChunksOf(b, sep), AllChunks(bs[1..], sep));
      InkAllOf(PiecesOf(b), AllPieces(bs[1..]));
      BlockInk(b, sep, maxChars);
    }
  }

  lemma BlockInk(b: Block, sep: string, maxChars: nat)
    requires Ink(sep) == "" && BlockFits(b, sep, maxChars) && CutWell(b, maxChars)
    ensures AllFit(ChunksOf(b, sep), maxChars) && InkAll(ChunksOf(b, sep)) == InkAll(PiecesOf(b))
  {
    if b.Row? {
      assert PiecesOf(b) == b.pieces;
      JoinedTrimmed(b.pieces, sep);
      JoinedInk(b.pieces, sep);
      InkOneMore([], Joined(b.pieces, sep));
      assert [] + [Joined(b.pieces, sep)] == [Joined(b.pieces, sep)];
    } else {
      InkOneMore([], b.piece);
      assert [] + [b.piece] == [b.piece];
    }
  }

  /** Every piece that fits stands whole in a chunk, and what stands in a cut piece's chunks does too. */
  lemma {:induction false} PackedWhole(bs: seq<Block>, sep: string, maxChars: nat)
    requires forall b | b in bs :: BlockFits(b, sep, maxChars)
    ensures forall p | p in AllPieces(bs) && |p| <= maxChars :: InSome(AllChunks(bs, sep), p)
    ensures forall b, p | b in bs && b.Long? && InSome(b.parts, p) :: InSome(AllChunks(bs, sep), p)
  {
    if bs != [] {
      var b, rest := bs[0], AllChunks(bs[1..], sep);
      assert b in bs && forall x | x in bs[1..] :: x in bs;
      PackedWhole(bs[1..], sep, maxChars);
      forall p
        ensures InSome(ChunksOf(b, sep), p) || InSome(rest, p) ==> InSome(AllChunks(bs, sep), p)
      {
        InMore(ChunksOf(b, sep), rest, p);
      }
      forall p | p in PiecesOf(b) && |p| <= maxChars ensures InSome(ChunksOf(b, sep), p) {
        WithinJoined(b.pieces, sep, p);
        assert Joined(b.pieces, sep) in ChunksOf(b, sep);
      }
      forall x, p | x in bs && x.Long? && InSome(x.parts, p) ensures InSome(AllChunks(bs, sep), p) {
        assert x == b || x in bs[1..];
      }
    }
  }

  lemma {:induction false} WithinJoined(ss: seq<string>, sep: string, p: string)
    requires p in ss
    ensures Within(Joined(ss, sep), p)
  {
    if p == ss[0] {
      assert StandsAt(Joined(ss, sep), p, 0);
    } else {
      WithinJoined(ss[1..], sep, p);
      var i :| StandsAt(Joined(ss[1..], sep), p, i);
      assert Joined(ss, sep) == (ss[0] + sep) + Joined(ss[1..], sep);
      assert StandsAt(Joined(ss, sep), p, |ss[0] + sep| + i);
    }
  }

  lemma InMore(chunks: seq<string>, more: seq<string>, p: string)
    ensures InSome(chunks, p) || InSome(more, p) ==> InSome(chunks + more, p)
  {
    if c :| c in chunks && Within(c, p) {
      assert c in chunks + more;
    }
    if c :| c in more && Within(c, p) {
      assert c in chunks + more;
    }
  }

  // ---- there is one packing only ------------------------------------------------------------------------------

  lemma {:induction false} JoinedFront(ss: seq<string>, sep: string, k: nat)
    requires k <= |ss|
    ensures |Joined(ss[..k], sep)| <= |Joined(ss, sep)|
  {
    if |ss| > 1 && k > 0 {
      assert ss[..k][1..] == ss[1..][..k - 1];
      JoinedFront(ss[1..], sep, k - 1);
    } else if k > 0 {
      assert ss[..k] == ss;
    }
  }

  lemma OneLonger(ss: seq<string>, i: nat)
    requires i < |ss|
    ensures ss[..i + 1] == ss[..i] + [ss[i]]
  {
  }

  lemma NextPiece(a: seq<Block>)
    requires a != [] && |AllPieces(a)| > |PiecesOf(a[0])| && forall x | x in a :: PiecesOf(x) != []
    ensures |a| > 1 && PiecesOf(a[1]) != [] && AllPieces(a)[|PiecesOf(a[0])|] == PiecesOf(a[1])[0]
  {
    var rest := a[1..];
    assert AllPieces(a) == PiecesOf(a[0]) + AllPieces(rest);
    assert a[1] in a && rest[0] == a[1];
  }

  lemma RowHoldsNext(x: seq<string>, y: seq<string>, sep: string)
    requires x != [] && |x| < |y| && y[..|x|] == x
    ensures |Joined(x, sep)| + |sep| + |y[|x|]| <= |Joined(y, sep)|
  {
    var z := x + [y[|x|]];
    OneLonger(y, |x|);
    assert y[..|x| + 1] == z;
    JoinedMore(x, sep, y[|x|]);
    JoinedFront(y, sep, |x| + 1);
  }

  /** Of two packings with the same pieces left, the first row of one is not shorter than that of the other. */
  lemma NoShorterRow(a: seq<Block>, b: seq<Block>, sep: string, maxChars: nat)
    requires a != [] && b != [] && a[0].Row? && b[0].Row? && AllPieces(a) == AllPieces(b)
    requires Packs(a, sep, maxChars) && BlockFits(b[0], sep, maxChars)
    ensures |a[0].pieces| >= |b[0].pieces|
  {
    var x, y := a[0].pieces, b[0].pieces;
    var all := AllPieces(a);
    assert all[..|x|] == x && all[..|y|] == y;
    assert a[0] in a;
    if |x| < |y| {
      NextPiece(a);
      var q := PiecesOf(a[1])[0];
      assert q == all[|x|] == y[|x|] && y[..|x|] == all[..|y|][..|x|] == x;
      RowHoldsNext(x, y, sep);
      assert a[1] in a;
      FirstFits(a[1], sep, maxChars);
    }
  }

  lemma SameFirst(a: seq<Block>, b: seq<Block>, sep: string, maxChars: nat)
    requires a != [] && b != [] && AllPieces(a) == AllPieces(b)
    requires Packs(a, sep, maxChars) && Packs(b, sep, maxChars) && SameCuts(a, b)
    ensures a[0] == b[0]
  {
    var all := AllPieces(a);
    assert a[0] in a && b[0] in b;
    assert PiecesOf(a[0])[0] == all[0] == PiecesOf(b[0])[0];
    FirstFits(a[0], sep, maxChars);
    FirstFits(b[0], sep, maxChars);
    if a[0].Row? {
      NoShorterRow(a, b, sep, maxChars);
      NoShorterRow(b, a, sep, maxChars);
      assert a[0].pieces == all[..|a[0].pieces|] && b[0].pieces == all[..|b[0].pieces|];
    }
  }

  lemma FirstFits(b: Block, sep: string, maxChars: nat)
    requires BlockFits(b, sep, maxChars)
    ensures |PiecesOf(b)[0]| <= maxChars <==> b.Row?
  {
    if b.Row? {
      JoinedFront(b.pieces, sep, 1);
      assert b.pieces[..1] == [b.pieces[0]];
    }
  }

  /** Where a piece that is too long is cut in one way, the pieces have one packing and one list of chunks. */
  lemma {:induction false} PackedOnce(a: seq<Block>, b: seq<Block>, sep: string, maxChars: nat)
    requires Packs(a, sep, maxChars) && Packs(b, sep, maxChars) && AllPieces(a) == AllPieces(b)
    requires SameCuts(a, b)
    ensures a == b
  {
    NoneIsEmpty(a, sep, maxChars);
    NoneIsEmpty(b, sep, maxChars);
    if a != [] && b != [] {
      SameFirst(a, b, sep, maxChars);
      TailPacks(a, sep, maxChars);
      TailPacks(b, sep, maxChars);
      TailCuts(a, b);
      PackedOnce(a[1..], b[1..], sep, maxChars);
      assert a == [a[0]] + a[1..] && b == [b[0]] + b[1..];
    }
  }

  /** A piece that is too long is cut in one way. */
  ghost predicate SameCuts(a: seq<Block>, b: seq<Block>) {
    forall x, y | x in a && y in b && x.Long? && y.Long? && x.piece == y.piece :: x.parts == y.parts
  }

  lemma TailCuts(a: seq<Block>, b: seq<Block>)
    requires a != [] && b != [] && SameCuts(a, b)
    ensures SameCuts(a[1..], b[1..])
  {
    forall x, y | x in a[1..] && y in b[1..] && x.Long? && y.Long? && x.piece == y.piece ensures x.parts == y.parts {
      assert x in a && y in b;
    }
  }

  lemma NoneIsEmpty(a: seq<Block>, sep: string, maxChars: nat)
    requires forall x | x in a :: BlockFits(x, sep, maxChars)
    ensures AllPieces(a) == [] <==> a == []
  {
    if a != [] {
      assert a[0] in a && PiecesOf(a[0]) != [];
    }
  }

  lemma TailPacks(a: seq<Block>, sep: string, maxChars: nat)
    requires a != [] && Packs(a, sep, maxChars)
    ensures Packs(a[1..], sep, maxChars) && AllPieces(a[1..]) == AllPieces(a)[|PiecesOf(a[0])|..]
  {
    forall i | 0 <= i < |a[1..]| - 1 ensures Full(a[1..][i], a[1..][i + 1], sep, maxChars) {
      assert a[1..][i] == a[i + 1] && a[1..][i + 1] == a[i + 1 + 1];
    }
  }

  // ---- the pieces of a text --------------------------------------------------------------------------------------

  /** Trimmed, and blank ones dropped. */
  function NonBlank(ss: seq<string>): seq<string> {
    if ss == [] then []
    else
      var last := Trim(ss[|ss| - 1]);
      NonBlank(ss[..|ss| - 1]) + if last == "" then [] else [last]
  }

  lemma NonBlankOneMore(ss: seq<string>, s: string)
    ensures NonBlank(ss + [s]) == NonBlank(ss) + if Trim(s) == "" then [] else [Trim(s)]
  {
    assert (ss + [s])[..|ss|] == ss;
  }

  lemma {:induction false} NonBlankInk(ss: seq<string>)
    ensures InkAll(NonBlank(ss)) == InkAll(ss)
    ensures forall s | s in ss && Trim(s) != "" :: Trim(s) in NonBlank(ss)
  {
    if ss != [] {
      var front, s := ss[..|ss| - 1], ss[|ss| - 1];
      assert ss == front + [s];
      NonBlankInk(front);
      NonBlankOneMore(front, s);
      InkOneMore(front, s);
      InkOneMore(NonBlank(front), Trim(s));
      assert NonBlank(front) + [] == NonBlank(front);
    }
  }

  // ---- long paragraphs ---------------------------------------------------------------------------------------------

  /** The sentences packed with a space between; those that are too long are cut hard. */
  ghost predicate SentencesPacked(para: string, maxChars: nat, chunks: seq<string>)
    requires maxChars >= 1
  {
    exists bs: seq<Block> ::
      && Packing(bs, NonBlank(Sentences(para)), " ", maxChars, chunks)
      && CutHard(bs, maxChars)
  }

  /** Sentences that are too long are cut hard. */
  ghost predicate CutHard(bs: seq<Block>, maxChars: nat)
    requires maxChars >= 1
  {
    forall b | b in bs && b.Long? :: HardPieces(b.piece, maxChars, b.parts)
  }

  lemma OneMoreCut(bs: seq<Block>, maxChars: nat, piece: string, parts: seq<string>)
    requires maxChars >= 1 && CutHard(bs, maxChars) && HardPieces(piece, maxChars, parts)
    ensures CutHard(bs + [Long(piece, parts)], maxChars)
  {
  }

  lemma SpaceHasNoInk()
    ensures Ink(" ") == "" && Ink("\n\n") == ""
  {
    assert Ink(" ") == Ink(" "[1..]);
    assert Ink("\n\n") == Ink("\n\n"[1..]);
  }

  lemma SentencesFinished(para: string, maxChars: nat, bs: seq<Block>, chunks: seq<string>, current: string)
    requires maxChars >= 1 && CutHard(bs, maxChars)
    requires Filling(bs, NonBlank(Sentences(para)), " ", maxChars, chunks, current)
    ensures SentencesPacked(para, maxChars, WithCurrent(chunks, current))
  {
  }

  /** Such chunks fit, hold the ink, and keep every sentence that fits whole. */
  lemma SentencesPackedFit(para: string, maxChars: nat, chunks: seq<string>)
    requires maxChars >= 1 && SentencesPacked(para, maxChars, chunks)
    ensures AllFit(chunks, maxChars) && InkAll(chunks) == Ink(para)
    ensures forall s | s in Sentences(para) && Fits(Trim(s), maxChars) :: InSome(chunks, Trim(s))
  {
    var bs: seq<Block> :| Packing(bs, NonBlank(Sentences(para)), " ", maxChars, chunks)
      && CutHard(bs, maxChars);
    forall b | b in bs ensures CutWell(b, maxChars) {
      assert BlockFits(b, " ", maxChars);
      if b.Long? {
        assert b.piece in PiecesOf(b);
        HardPiecesFit(b.piece, maxChars, b.parts);
      }
    }
    SpaceHasNoInk();
    PackedFit(bs, " ", maxChars);
    PackedWhole(bs, " ", maxChars);
    NonBlankInk(Sentences(para));
    SentencesInk(para);
  }

  lemma SentencesPackedOnce(para: string, maxChars: nat, a: seq<string>, b: seq<string>)
    requires maxChars >= 1 && SentencesPacked(para, maxChars, a) && SentencesPacked(para, maxChars, b)
    ensures a == b
  {
    var xs: seq<Block> :| Packing(xs, NonBlank(Sentences(para)), " ", maxChars, a)
      && CutHard(xs, maxChars);
    var ys: seq<Block> :| Packing(ys, NonBlank(Sentences(para)), " ", maxChars, b)
      && CutHard(ys, maxChars);
    forall x, y | x in xs && y in ys && x.Long? && y.Long? && x.piece == y.piece ensures x.parts == y.parts {
      HardPiecesOnce(x.piece, maxChars, x.parts, y.parts);
    }
    PackedOnce(xs, ys, " ", maxChars);
  }

  /** A long paragraph, sentence by sentence: they are packed, and each that fits stays whole. */
  method SplitLargeParagraph(para: string, maxChars: nat) returns (chunks: seq<string>)
    requires maxChars >= 1
    ensures SentencesPacked(para, maxChars, chunks)
    ensures AllFit(chunks, maxChars) && InkAll(chunks) == Ink(para)
    ensures forall s | s in Sentences(para) && Fits(Trim(s), maxChars) :: InSome(chunks, Trim(s))
  {
    var sentences := SplitSentences(para);
    chunks := [];
    var current := "";
    ghost var bs: seq<Block> := [];
    for i := 0 to |sentences|
      invariant Filling(bs, NonBlank(sentences[..i]), " ", maxChars, chunks, current)
      invariant CutHard(bs, maxChars)
    {
      OneLonger(sentences, i);
      NonBlankOneMore(sentences[..i], sentences[i]);
      var sent := Trim(sentences[i]);
      if sent != "" {
        chunks, current, bs := AddSentence(chunks, current, sent, bs, NonBlank(sentences[..i]), maxChars);
      }
    }
    assert sentences[..|sentences|] == sentences;
    CurrentTrimmed(bs, NonBlank(sentences), " ", maxChars, chunks, current);
    SentencesFinished(para, maxChars, bs, chunks, current);
    if |current| > 0 {
      chunks := chunks + [Trim(current)];
    }
    SentencesPackedFit(para, maxChars, chunks);
  }

  method AddSentence(chunks0: seq<string>, current0: string, sent: string, ghost bs0: seq<Block>,
                     ghost pieces: seq<string>, maxChars: nat)
    returns (chunks: seq<string>, current: string, ghost bs: seq<Block>)
    requires maxChars >= 1 && sent != "" && Trimmed(sent) && Filling(bs0, pieces, " ", maxChars, chunks0, current0)
    requires CutHard(bs0, maxChars)
    ensures Filling(bs, pieces + [sent], " ", maxChars, chunks, current)
    ensures CutHard(bs, maxChars)
  {
    chunks, current := chunks0, current0;
    CurrentTrimmed(bs0, pieces, " ", maxChars, chunks0, current0);
    if |sent| > maxChars {
      if |current| > 0 {
        chunks, current := chunks + [Trim(current)], "";
      }
      var parts := HardSplit(sent, maxChars);
      LongAdded(bs0, pieces, " ", maxChars, chunks0, current0, sent, parts);
      OneMoreCut(bs0, maxChars, sent, parts);
      chunks, bs := chunks + parts, bs0 + [Long(sent, parts)];
      return;
    }
    if |current| > 0 && |current| + 1 + |sent| > maxChars {
      chunks, current := chunks + [Trim(current)], "";
    }
    bs := ShortAdded(bs0, pieces, " ", maxChars, chunks0, current0, sent);
    if |current| > 0 {
      current := current + " ";
    }
    assert "" + sent == sent;
    current := current + sent;
  }

  // ---- paragraphs ------------------------------------------------------------------------------------------

  /** The pieces between double line breaks, found from the left. */
  function Paragraphs(text: string): (paras: seq<string>)
    ensures paras != []
  {
    if |text| < 2 then [text]
    else if text[..2] == "\n\n" then [""] + Paragraphs(text[2..])
    else
      var rest := Paragraphs(text[1..]);
      [[text[0]] + rest[0]] + rest[1..]
  }

  /** Splitting into paragraphs loses nothing but the breaks. */
  lemma {:induction false} ParagraphsJoin(text: string)
    ensures Joined(Paragraphs(text), "\n\n") == text
  {
    var paras := Paragraphs(text);
    if |text| >= 2 {
      if text[..2] == "\n\n" {
        ParagraphsJoin(text[2..]);
        assert paras[1..] == Paragraphs(text[2..]);
        assert text == "\n\n" + text[2..];
      } else {
        ParagraphsJoin(text[1..]);
        var rest := Paragraphs(text[1..]);
        assert paras[0] == [text[0]] + rest[0] && paras[1..] == rest[1..];
        assert text == [text[0]] + text[1..];
        if |rest| > 1 {
          assert Joined(paras, "\n\n") == [text[0]] + (rest[0] + "\n\n" + Joined(rest[1..], "\n\n"));
        }
      }
    }
  }

  ghost predicate Breaks(s: string, i: int) { 0 <= i < |s| - 1 && s[i] == '\n' && s[i + 1] == '\n' }

  /** No double line break stands in it. */
  ghost predicate Unsplit(p: string) { forall i :: !Breaks(p, i) }

  /** And it does not end in a line break either. */
  ghost predicate Cropped(p: string) { p == "" || p[|p| - 1] != '\n' }

  /** No paragraph has a double line break in it, and none but the last ends in a line break. */
  lemma {:induction false} ParagraphsApart(text: string)
    ensures forall j | 0 <= j < |Paragraphs(text)| :: Unsplit(Paragraphs(text)[j])
    ensures forall j | 0 <= j < |Paragraphs(text)| - 1 :: Cropped(Paragraphs(text)[j])
    ensures Paragraphs(text)[0] <= text
    ensures |Paragraphs(text)| > 1 ==> |Paragraphs(text)[0]| + 2 <= |text|
                                       && Breaks(text, |Paragraphs(text)[0]|)
  {
    if |text| >= 2 && text[..2] == "\n\n" {
      ParagraphsApart(text[2..]);
      assert text[0] == text[..2][0] && text[1] == text[..2][1];
    } else if |text| >= 2 {
      ParagraphsApart(text[1..]);
      var rest := Paragraphs(text[1..]);
      assert text[..2] == [text[0], text[1]];
      LongerFirst(text, rest);
    }
  }

  lemma LongerFirst(text: string, rest: seq<string>)
    requires |text| >= 2 && !Breaks(text, 0) && rest != [] && rest[0] <= text[1..] && Unsplit(rest[0])
    requires |rest| > 1 ==> Cropped(rest[0]) && |rest[0]| + 2 <= |text| - 1 && Breaks(text[1..], |rest[0]|)
    ensures var first := [text[0]] + rest[0];
            && Unsplit(first) && first <= text
            && (|rest| > 1 ==> Cropped(first) && |first| + 2 <= |text| && Breaks(text, |first|))
  {
    var more := rest[0];
    var first := [text[0]] + more;
    assert text == [text[0]] + text[1..];
    assert first == text[..|first|];
    forall i ensures !Breaks(first, i) {
      assert Breaks(first, i) ==> if i > 0 then Breaks(more, i - 1) else Breaks(text, 0);
    }
    if |rest| > 1 {
      assert text[1..][|rest[0]|] == text[|first|] && text[1..][|rest[0]| + 1] == text[|first| + 1];
      if rest[0] == "" {
        assert Breaks(text, 1);
      }
    }
  }

  lemma ParagraphsInk(text: string)
    ensures InkAll(Paragraphs(text)) == Ink(text)
  {
    ParagraphsJoin(text);
    SpaceHasNoInk();
    JoinedInk(Paragraphs(text), "\n\n");
  }

  const DEFAULT_CHARS: nat := 1500

  function Limit(maxChars: int): (r: nat)
    ensures r >= 1 && (r == maxChars || (maxChars <= 0 && r == 1500))
  {
    if maxChars <= 0 then DEFAULT_CHARS else maxChars
  }

  /** A paragraph that fits, or a sentence that fits of a paragraph that does not. */
  ghost predicate Piece(text: string, maxChars: nat, u: string) {
    exists para :: para in Paragraphs(text) && PieceOf(Trim(para), maxChars, u)
  }

  ghost predicate PieceOf(para: string, maxChars: nat, u: string) {
    Fits(u, maxChars) && if |para| <= maxChars then u == para else exists s :: s in Sentences(para) && u == Trim(s)
  }

  /** The paragraphs packed with a double line break between; those that are too long are split by sentences. */
  ghost predicate ParagraphsPacked(text: string, maxChars: nat, chunks: seq<string>)
    requires maxChars >= 1
  {
    exists bs: seq<Block> ::
      && Packing(bs, NonBlank(Paragraphs(text)), "\n\n", maxChars, chunks)
      && forall b | b in bs && b.Long? :: SentencesPacked(b.piece, maxChars, b.parts)
  }

  lemma ParagraphsFinished(text: string, maxChars: nat, bs: seq<Block>, chunks: seq<string>, current: string)
    requires maxChars >= 1 && forall b | b in bs && b.Long? :: SentencesPacked(b.piece, maxChars, b.parts)
    requires Filling(bs, NonBlank(Paragraphs(text)), "\n\n", maxChars, chunks, current)
    ensures ParagraphsPacked(text, maxChars, WithCurrent(chunks, current))
  {
  }

  /** A text has one list of such chunks only. */
  lemma ParagraphsPackedOnce(text: string, maxChars: nat, a: seq<string>, b: seq<string>)
    requires maxChars >= 1 && ParagraphsPacked(text, maxChars, a) && ParagraphsPacked(text, maxChars, b)
    ensures a == b
  {
    var xs: seq<Block> :| Packing(xs, NonBlank(Paragraphs(text)), "\n\n", maxChars, a)
      && forall x | x in xs && x.Long? :: SentencesPacked(x.piece, maxChars, x.parts);
    var ys: seq<Block> :| Packing(ys, NonBlank(Paragraphs(text)), "\n\n", maxChars, b)
      && forall y | y in ys && y.Long? :: SentencesPacked(y.piece, maxChars, y.parts);
    forall x, y | x in xs && y in ys && x.Long? && y.Long? && x.piece == y.piece ensures x.parts == y.parts {
      SentencesPackedOnce(x.piece, maxChars, x.parts, y.parts);
    }
    PackedOnce(xs, ys, "\n\n", maxChars);
  }

  lemma ParagraphsPackedFit(text: string, maxChars: nat, chunks: seq<string>)
    requires maxChars >= 1 && ParagraphsPacked(text, maxChars, chunks)
    ensures AllFit(chunks, maxChars) && InkAll(chunks) == Ink(text)
    ensures forall u | Piece(text, maxChars, u) :: InSome(chunks, u)
  {
    var bs: seq<Block> :| Packing(bs, NonBlank(Paragraphs(text)), "\n\n", maxChars, chunks)
      && forall b | b in bs && b.Long? :: SentencesPacked(b.piece, maxChars, b.parts);
    forall b | b in bs ensures CutWell(b, maxChars) {
      if b.Long? {
        SentencesPackedFit(b.piece, maxChars, b.parts);
      }
    }
    SpaceHasNoInk();
    PackedFit(bs, "\n\n", maxChars);
    PackedWhole(bs, "\n\n", maxChars);
    NonBlankInk(Paragraphs(text));
    ParagraphsInk(text);
    forall u | Piece(text, maxChars, u) ensures InSome(chunks, u) {
      PieceStands(text, maxChars, chunks, bs, u);
    }
  }

  lemma PieceStands(text: string, maxChars: nat, chunks: seq<string>, bs: seq<Block>, u: string)
    requires maxChars >= 1 && Packing(bs, NonBlank(Paragraphs(text)), "\n\n", maxChars, chunks)
    requires forall b | b in bs && b.Long? :: SentencesPacked(b.piece, maxChars, b.parts)
    requires Piece(text, maxChars, u)
    ensures InSome(chunks, u)
  {
    var para :| para in Paragraphs(text) && PieceOf(Trim(para), maxChars, u);
    PackedWhole(bs, "\n\n", maxChars);
    NonBlankInk(Paragraphs(text));
    assert Trim(para) in AllPieces(bs);
    if |Trim(para)| > maxChars {
      BlockOfLong(bs, "\n\n", maxChars, Trim(para));
      var b :| b in bs && b.Long? && b.piece == Trim(para);
      SentencesPackedFit(b.piece, maxChars, b.parts);
    }
  }

  lemma {:induction false} BlockOfLong(bs: seq<Block>, sep: string, maxChars: nat, p: string)
    requires p in AllPieces(bs) && |p| > maxChars && forall b | b in bs :: BlockFits(b, sep, maxChars)
    ensures exists b :: b in bs && b.Long? && b.piece == p
  {
    assert bs[0] in bs && forall b | b in bs[1..] :: b in bs;
    if p in PiecesOf(bs[0]) {
      if bs[0].Row? {
        NoLongerThanJoined(bs[0].pieces, sep, p);
      }
    } else {
      BlockOfLong(bs[1..], sep, maxChars, p);
    }
  }

  lemma NoLongerThanJoined(ss: seq<string>, sep: string, p: string)
    requires p in ss
    ensures |p| <= |Joined(ss, sep)|
  {
    WithinJoined(ss, sep, p);
  }

  /** Every chunk is non-empty, trimmed and within the limit; in order the chunks hold exactly
      the ink of the text; a text that fits is one chunk, a blank one is none; of a longer one every
      paragraph, and every sentence of a paragraph that does not fit, stays whole if it fits, and as many
      are packed into one chunk as fit. */
  method ChunkText(text0: string, maxChars0: int) returns (chunks: seq<string>)
    ensures AllFit(chunks, Limit(maxChars0))
    ensures InkAll(chunks) == Ink(text0)
    ensures 0 < |Trim(text0)| <= Limit(maxChars0) ==> chunks == [Trim(text0)]
    ensures |Trim(text0)| > Limit(maxChars0) ==> ParagraphsPacked(Trim(text0), Limit(maxChars0), chunks)
    ensures |Trim(text0)| > Limit(maxChars0) ==> forall u | Piece(Trim(text0), Limit(maxChars0), u) :: InSome(chunks, u)
    ensures Ink(text0) == "" <==> chunks == []
  {
    var maxChars := Limit(maxChars0);
    var text := Trim(text0);
    if text == "" {
      return [];
    }
    InkAtHead(text);
    InkOneMore([], text);
    if |text| <= maxChars {
      return [text];
    }
    chunks := ChunkParagraphs(text, maxChars);
  }

  method ChunkParagraphs(text: string, maxChars: nat) returns (chunks: seq<string>)
    requires maxChars >= 1
    ensures ParagraphsPacked(text, maxChars, chunks)
    ensures AllFit(chunks, maxChars) && InkAll(chunks) == Ink(text)
    ensures forall u | Piece(text, maxChars, u) :: InSome(chunks, u)
  {
    var paragraphs := Paragraphs(text);
    chunks := [];
    var current := "";
    ghost var bs: seq<Block> := [];
    for i := 0 to |paragraphs|
      invariant Filling(bs, NonBlank(paragraphs[..i]), "\n\n", maxChars, chunks, current)
      invariant forall b | b in bs && b.Long? :: SentencesPacked(b.piece, maxChars, b.parts)
    {
      OneLonger(paragraphs, i);
      NonBlankOneMore(paragraphs[..i], paragraphs[i]);
      var para := Trim(paragraphs[i]);
      if para != "" {
        chunks, current, bs := AddParagraph(chunks, current, para, bs, NonBlank(paragraphs[..i]), maxChars);
      }
    }
    assert paragraphs[..|paragraphs|] == paragraphs;
    CurrentTrimmed(bs, NonBlank(paragraphs), "\n\n", maxChars, chunks, current);
    ParagraphsFinished(text, maxChars, bs, chunks, current);
    if |current| > 0 {
      chunks := chunks + [Trim(current)];
    }
    ParagraphsPackedFit(text, maxChars, chunks);
  }

  method AddParagraph(chunks0: seq<string>, current0: string, para: string, ghost bs0: seq<Block>,
                      ghost pieces: seq<string>, maxChars: nat)
    returns (chunks: seq<string>, current: string, ghost bs: seq<Block>)
    requires maxChars >= 1 && para != "" && Trimmed(para) && Filling(bs0, pieces, "\n\n", maxChars, chunks0, current0)
    requires forall b | b in bs0 && b.Long? :: SentencesPacked(b.piece, maxChars, b.parts)
    ensures Filling(bs, pieces + [para], "\n\n", maxChars, chunks, current)
    ensures forall b | b in bs && b.Long? :: SentencesPacked(b.piece, maxChars, b.parts)
  {
    chunks, current := chunks0, current0;
    CurrentTrimmed(bs0, pieces, "\n\n", maxChars, chunks0, current0);
    if |current| > 0 && |current| + 2 + |para| > maxChars {
      chunks, current := chunks + [Trim(current)], "";
    }
    if |para| > maxChars {
      if |current| > 0 {
        chunks, current := chunks + [Trim(current)], "";
      }
      var parts := SplitLargeParagraph(para, maxChars);
      LongAdded(bs0, pieces, "\n\n", maxChars, chunks0, current0, para, parts);
      chunks, bs := chunks + parts, bs0 + [Long(para, parts)];
      return;
    }
    bs := ShortAdded(bs0, pieces, "\n\n", maxChars, chunks0, current0, para);
    if |current| > 0 {
      current := current + "\n\n";
    }
    assert "" + para == para;
    current := current + para;
  }

  lemma InkAtHead(text: string)
    requires Trimmed(text) && text != ""
    ensures Ink(text) != ""
  {
  }
}

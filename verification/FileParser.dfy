// Splitting a file into words (hw2/FileParser.c).
module FileParser {
  import opened Bytes
  import opened Wrappers
  import opened Tables
  import opened Fnv
  import opened HashTables

  const ASCII_UPPER_BOUND: int := 0x7F
  const WORD_TABLE_BUCKETS: nat := 32

  datatype WordPositions = WordPositions(word: CString, positions: seq<uint64>)

  // isalpha() and tolower() in the C locale.
  predicate IsAlpha(c: byte) { 65 <= c <= 90 || 97 <= c <= 122 }

  function ToLower(c: byte): byte { if 65 <= c <= 90 then c + 32 else c }

  function Lower(s: seq<byte>): (r: seq<byte>)
    ensures |r| == |s| && forall i :: 0 <= i < |s| ==> r[i] == ToLower(s[i])
  {
    seq(|s|, i requires 0 <= i < |s| => ToLower(s[i]))
  }

  // ---------- The words of a text ----------

  // [a, b) is a maximal run of letters that a non-letter of the text follows.
  predicate RunAt(s: seq<byte>, a: nat, b: nat) {
    a < b < |s| && (forall i :: a <= i < b ==> IsAlpha(s[i])) && !IsAlpha(s[b]) && (a > 0 ==> !IsAlpha(s[a - 1]))
  }

  // Where the letters before position e begin.
  function RunStart(s: seq<byte>, e: nat): (a: nat)
    requires e <= |s|
    ensures a <= e && (forall i :: a <= i < e ==> IsAlpha(s[i])) && (a > 0 ==> !IsAlpha(s[a - 1]))
  {
    if e == 0 || !IsAlpha(s[e - 1]) then e else RunStart(s, e - 1)
  }

  predicate EndsWord(s: seq<byte>, e: nat) { 0 < e < |s| && !IsAlpha(s[e]) && IsAlpha(s[e - 1]) }

  function WordEnding(s: seq<byte>, e: nat): CString
    requires e <= |s|
  {
    Lower(s[RunStart(s, e)..e])
  }

  // The offsets of the occurrences of w that end before position n.
  function Occurrences(s: seq<byte>, w: CString, n: nat): seq<uint64>
    requires n <= |s| < TWO_31
  {
    if n == 0 then []
    else Occurrences(s, w, n - 1) + (if EndsWord(s, n - 1) && WordEnding(s, n - 1) == w then [RunStart(s, n - 1)]
      else [])
  }

  // The word occurs at a and ends at b.
  predicate OccursAt(s: seq<byte>, w: CString, a: nat, b: nat) { RunAt(s, a, b) && Lower(s[a..b]) == w }

  lemma RunIsItsStart(s: seq<byte>, w: CString, a: nat, b: nat)
    ensures OccursAt(s, w, a, b) <==> EndsWord(s, b) && RunStart(s, b) == a && WordEnding(s, b) == w
  {
    if RunAt(s, a, b) {
      var r := RunStart(s, b);
      assert a > 0 ==> !IsAlpha(s[a - 1]);
      assert r > 0 ==> !IsAlpha(s[r - 1]);
    }
  }

  // The listed offsets are exactly the starts of the maximal alphabetic runs
  // that are followed by another byte and equal the word once lower-cased.
  lemma {:induction false} OccurrencesAreRuns(s: seq<byte>, w: CString, n: nat, a: uint64)
    requires n <= |s| < TWO_31
    ensures a in Occurrences(s, w, n) <==> exists b: nat :: b < n && OccursAt(s, w, a, b)
  {
    hide OccursAt, EndsWord, RunStart, WordEnding;
    if n > 0 {
      OccurrencesAreRuns(s, w, n - 1, a);
      RunIsItsStart(s, w, a, n - 1);
    }
  }

  // ---------- The words in plain numbers ----------

  predicate NoLetter(c: byte) { c < 65 || 90 < c < 97 || 122 < c }

  // The lower-case word is spelled at a, in small or capital letters.
  predicate SpelledAt(s: seq<byte>, w: CString, a: nat)
    requires a + |w| <= |s|
  {
    forall i :: 0 <= i < |w| ==> 97 <= w[i] <= 122 && (s[a + i] == w[i] || s[a + i] == w[i] - 32)
  }

  // A word is listed at offset a if and only if it is not empty, is spelled
  // there, and a byte that is no letter follows it before position n and none
  // but such a byte precedes it.
  lemma OccurrencesInNumbers(s: seq<byte>, w: CString, n: nat, a: uint64)
    requires n <= |s| < TWO_31
    ensures a in Occurrences(s, w, n) <==>
            w != [] && a + |w| < n && SpelledAt(s, w, a) && NoLetter(s[a + |w|]) && (a > 0 ==> NoLetter(s[a - 1]))
  {
    hide Occurrences;
    OccurrencesAreRuns(s, w, n, a);
    var b := a + |w|;
    if b < n {
      assert OccursAt(s, w, a, b) <==>
             w != [] && SpelledAt(s, w, a) && NoLetter(s[b]) && (a > 0 ==> NoLetter(s[a - 1])) by {
        SpelledRun(s, w, a);
      }
    }
    assert forall b': nat :: OccursAt(s, w, a, b') ==> b' == b;
  }

  lemma SpelledRun(s: seq<byte>, w: CString, a: nat)
    requires a + |w| < |s|
    ensures (forall i :: a <= i < a + |w| ==> IsAlpha(s[i])) && Lower(s[a..a + |w|]) == w <==> SpelledAt(s, w, a)
  {
    var run := s[a..a + |w|];
    assert forall i :: 0 <= i < |w| ==> run[i] == s[a + i];
    if SpelledAt(s, w, a) {
      forall i | a <= i < a + |w| ensures IsAlpha(s[i]) { assert 97 <= w[i - a] <= 122; }
    } else {
      var i :| 0 <= i < |w| && !(97 <= w[i] <= 122 && (s[a + i] == w[i] || s[a + i] == w[i] - 32));
      assert Lower(run)[i] == ToLower(s[a + i]);
    }
  }

  // A text gets a table if and only if every byte is below 128 and some letter
  // is followed by a byte that is none.
  lemma IndexableInNumbers(s: seq<byte>)
    requires |s| < TWO_31
    ensures Indexable(s) <==>
            (forall i :: 0 <= i < |s| ==> s[i] < 128) &&
            exists i :: 0 < i < |s| && !NoLetter(s[i - 1]) && NoLetter(s[i])
  {
    hide Occurrences;
    if HasWords(s) {
      var w: CString :| Occurrences(s, w, |s|) != [];
      var a := Occurrences(s, w, |s|)[0];
      OccurrencesInNumbers(s, w, |s|, a);
      assert 97 <= w[|w| - 1] <= 122;
      assert !NoLetter(s[a + |w| - 1]) && NoLetter(s[a + |w|]);
    }
    if i :| 0 < i < |s| && !NoLetter(s[i - 1]) && NoLetter(s[i]) {
      RunIsItsStart(s, WordEnding(s, i), RunStart(s, i), i);
      OccurrencesAreRuns(s, WordEnding(s, i), |s|, RunStart(s, i));
    }
  }

  // A run of letters that reaches the end of the text is not listed.
  lemma FinalRunIsDropped(s: seq<byte>, w: CString, a: uint64)
    requires a < |s| < TWO_31 && forall i :: a <= i < |s| ==> IsAlpha(s[i])
    ensures a !in Occurrences(s, w, |s|)
  {
    hide Occurrences;
    OccurrencesAreRuns(s, w, |s|, a);
  }

  // The offsets are listed in strictly ascending order.
  lemma {:induction false} OccurrencesAscend(s: seq<byte>, w: CString, n: nat)
    requires n <= |s| < TWO_31
    ensures forall i, j :: 0 <= i < j < |Occurrences(s, w, n)| ==> Occurrences(s, w, n)[i] < Occurrences(s, w, n)[j]
  {
    if n > 0 {
      OccurrencesAscend(s, w, n - 1);
      var before := Occurrences(s, w, n - 1);
      if EndsWord(s, n - 1) {
        forall i | 0 <= i < |before| ensures before[i] < RunStart(s, n - 1) {
          assert before[i] in before;
          OccurrencesAreRuns(s, w, n - 1, before[i]);
          var b: nat :| b < n - 1 && OccursAt(s, w, before[i], b);
          assert !IsAlpha(s[b]);
        }
      }
    }
  }

  lemma {:induction false} OccurrencesGrow(s: seq<byte>, w: CString, m: nat, n: nat)
    requires m <= n <= |s| < TWO_31
    ensures Occurrences(s, w, m) <= Occurrences(s, w, n)
  {
    if m < n { OccurrencesGrow(s, w, m, n - 1); }
  }

  // ---------- The table of words ----------

  // The words of a set have different hashes.
  ghost predicate HashesApart(words: iset<CString>) {
    forall v, w :: v in words && w in words && FNVHash64(v) == FNVHash64(w) ==> v == w
  }

  ghost function WordsIn(s: seq<byte>): iset<CString>
    requires |s| < TWO_31
  {
    iset w: CString | Occurrences(s, w, |s|) != []
  }

  // The table holds every word that ends before position n, with its offsets.
  ghost predicate Parsed(t: Table<WordPositions>, s: seq<byte>, n: nat)
    requires n <= |s| < TWO_31
  {
    Wf(t) &&
    (forall k: Key :: Find(t, k).Some? ==>
       var wp := Find(t, k).value;
       FNVHash64(wp.word) == k && wp.positions == Occurrences(s, wp.word, n) && wp.positions != []) &&
    (forall w: CString :: Occurrences(s, w, n) != [] ==>
       Find(t, FNVHash64(w)).Some? && Find(t, FNVHash64(w)).value.word == w)
  }

  function AddedPosition(t: Table<WordPositions>, word: CString, pos: uint64): Table<WordPositions>
    requires HasBuckets(t)
  {
    var key := FNVHash64(word);
    var r := Find(t, key);
    if r.Some? then Put(t, KV(key, WordPositions(r.value.word, r.value.positions + [pos])))
    else Insert(t, KV(key, WordPositions(word, [pos])))
  }

  lemma NothingParsed(s: seq<byte>)
    requires |s| < TWO_31
    ensures Parsed(Allocate(WORD_TABLE_BUCKETS), s, 0)
  {
    AllocateWf<WordPositions>(WORD_TABLE_BUCKETS);
  }

  lemma AddedFinds(t: Table<WordPositions>, word: CString, pos: uint64)
    requires Wf(t)
    requires Find(t, FNVHash64(word)).Some? ==> Find(t, FNVHash64(word)).value.word == word
    ensures var key, r := FNVHash64(word), AddedPosition(t, word, pos);
            Wf(r) &&
            (forall k: Key :: k != key ==> Find(r, k) == Find(t, k)) &&
            Find(r, key) ==
            Some(WordPositions(word, (if Find(t, key).Some? then Find(t, key).value.positions else []) + [pos]))
  {
    hide FNVHash64, Find, Insert, Put, Wf, NumElements;
    var key := FNVHash64(word);
    var r := Find(t, key);
    if r.Some? {
      PutKeepsWf(t, KV(key, WordPositions(word, r.value.positions + [pos])));
    } else {
      assert [] + [pos] == [pos];
      InsertFinds(t, KV(key, WordPositions(word, [pos])));
    }
  }

  // A boundary that ends a word.
  lemma ParsedWord(t: Table<WordPositions>, s: seq<byte>, n: nat)
    requires n < |s| < TWO_31 && Parsed(t, s, n) && EndsWord(s, n) && HashesApart(WordsIn(s))
    ensures var w := WordEnding(s, n);
            (Find(t, FNVHash64(w)).Some? ==> Find(t, FNVHash64(w)).value.word == w) &&
            Parsed(AddedPosition(t, w, RunStart(s, n)), s, n + 1)
  {
    hide FNVHash64, Find, AddedPosition, Wf, EndsWord, WordEnding, RunStart;
    var w := WordEnding(s, n);
    var r := Find(t, FNVHash64(w));
    OccurrencesGrow(s, w, n + 1, |s|);
    assert w in WordsIn(s);
    if r.Some? {
      OccurrencesGrow(s, r.value.word, n, |s|);
      assert r.value.word in WordsIn(s);
    }
    AddedFinds(t, w, RunStart(s, n));
  }

  // Any other byte.
  lemma ParsedNoWord(t: Table<WordPositions>, s: seq<byte>, n: nat)
    requires n < |s| < TWO_31 && Parsed(t, s, n) && !EndsWord(s, n)
    ensures Parsed(t, s, n + 1)
  {
    hide FNVHash64, Find, Wf, EndsWord, WordEnding, RunStart;
  }

  // ---------- The parser ----------

  // A C string of n bytes starts at position p.
  predicate CStringAt(b: seq<byte>, p: nat, n: nat) {
    p + n < |b| && b[p + n] == 0 && forall i :: p <= i < p + n ==> b[i] != 0
  }

  method StrLen(content: array<byte>, start: nat, ghost n: nat) returns (len: nat)
    requires CStringAt(content[..], start, n)
    ensures len == n
  {
    len := 0;
    while content[start + len] != 0
      invariant 0 <= len <= n
      decreases n - len
    {
      len := len + 1;
    }
  }

  method AddWordPosition(tab: HashTable<WordPositions>, word: CString, pos: uint64)
    requires tab.Valid()
    requires Find(tab.View(), FNVHash64(word)).Some? ==> Find(tab.View(), FNVHash64(word)).value.word == word
    modifies tab.Repr
    ensures tab.Valid() && fresh(tab.Repr - old(tab.Repr))
    ensures tab.View() == AddedPosition(old(tab.View()), word, pos)
  {
    hide FNVHash64, HashTable.Valid, HashTable.View, Find, Insert, Put, Wf, NumElements;
    var hashKey := FNVHash(word);
    var kv := tab.Find(hashKey);
    if kv.Some? {
      var wp := kv.value;
      assert wp.word == word;
      tab.Update(hashKey, WordPositions(wp.word, wp.positions + [pos]));
    } else {
      var unused := tab.Insert(KV(hashKey, WordPositions(word, [pos])));
    }
  }

  // What the scan leaves in the buffer: letters in lower case, and a
  // terminator right after every word.
  function NormalizedAt(s: seq<byte>, i: nat): byte
    requires i < |s|
  {
    if IsAlpha(s[i]) then ToLower(s[i]) else if i > 0 && IsAlpha(s[i - 1]) then 0 else s[i]
  }

  // The buffer after the scan has passed the first n bytes of text s.
  ghost predicate Scanned(now: seq<byte>, before: seq<byte>, s: seq<byte>, n: nat)
    requires n <= |s| <= |before|
  {
    |now| == |before| && (forall i :: 0 <= i < n ==> now[i] == NormalizedAt(s, i)) &&
    forall i :: n <= i < |before| ==> now[i] == before[i]
  }

  // The word that has just been terminated in the buffer.
  lemma WordInBuffer(now: seq<byte>, before: seq<byte>, s: seq<byte>, e: nat)
    requires EndsWord(s, e) && |s| <= |before| && Scanned(now, before, s, e + 1)
    ensures var a := RunStart(s, e);
            CStringAt(now, a, e - a) && now[a..e] == WordEnding(s, e)
  {
    var a := RunStart(s, e);
    forall i | a <= i < e ensures now[i] != 0 && now[i] == ToLower(s[i]) {
      assert IsAlpha(s[i]);
    }
  }

  // A word has just been terminated in the buffer.
  method RecordWord(tab: HashTable<WordPositions>, content: array<byte>, wordStart: nat,
                    ghost before: seq<byte>, ghost s: seq<byte>, ghost e: nat)
    requires tab.Valid() && content !in tab.Repr && EndsWord(s, e) && |s| <= |before| && |s| < TWO_31
    requires wordStart == RunStart(s, e) && Scanned(content[..], before, s, e + 1)
    requires Parsed(tab.View(), s, e) && HashesApart(WordsIn(s))
    modifies tab.Repr
    ensures tab.Valid() && fresh(tab.Repr - old(tab.Repr)) && content !in tab.Repr && Parsed(tab.View(), s, e + 1)
    ensures content[..] == old(content[..])
  {
    hide FNVHash64, HashTable.Valid, HashTable.View, HashTable.Separate, Find, Wf, Parsed, AddedPosition, HashesApart,
      Occurrences, Scanned, EndsWord, RunStart, WordEnding;
    StartOfWord(s, e);
    WordInBuffer(content[..], before, s, e);
    ParsedWord(tab.View(), s, e);
    var len := StrLen(content, wordStart, e - wordStart);
    AddWordPosition(tab, content[wordStart..wordStart + len], wordStart);
  }

  lemma StartOfWord(s: seq<byte>, e: nat)
    requires EndsWord(s, e)
    ensures e < |s| && RunStart(s, e) <= e
  {
  }

  // Cuts the text into words: capital letters become small ones, the byte after
  // each word becomes NUL, and no other byte changes.
  method InsertContent(tab: HashTable<WordPositions>, content: array<byte>, ghost n: nat)
    requires tab.Valid() && content !in tab.Repr && tab.View() == Allocate(32)
    requires CStringAt(content[..], 0, n) && n < TWO_31 && HashesApart(WordsIn(content[..n]))
    modifies tab.Repr, content
    ensures tab.Valid() && fresh(tab.Repr - old(tab.Repr))
    ensures Parsed(tab.View(), old(content[..n]), n)
    ensures Scanned(content[..], old(content[..]), old(content[..n]), n)
    ensures forall i :: 0 <= i < n ==>
              content[i] == if 65 <= old(content[i]) <= 90 then old(content[i]) + 32
                            else if NoLetter(old(content[i])) && i > 0 && !NoLetter(old(content[i - 1])) then 0
                            else old(content[i])
  {
    hide FNVHash64, HashTable.Valid, HashTable.View, HashTable.Separate, Find, Wf, Parsed, HashesApart, Occurrences;
    ghost var s, before := content[..n], content[..];
    NothingParsed(s);
    var curPtr: nat := 0;
    var wordStart: Option<nat> := None;
    while content[curPtr] != 0
      invariant 0 <= curPtr <= n && tab.Valid() && fresh(tab.Repr - old(tab.Repr)) && content !in tab.Repr
      invariant Scanned(content[..], before, s, curPtr)
      invariant Parsed(tab.View(), s, curPtr)
      invariant wordStart == if curPtr > 0 && IsAlpha(s[curPtr - 1]) then Some(RunStart(s, curPtr)) else None
      decreases n - curPtr
    {
      assert content[..][curPtr] == before[curPtr] == s[curPtr];
      if IsAlpha(content[curPtr]) {
        ParsedNoWord(tab.View(), s, curPtr);
        if wordStart == None {
          wordStart := Some(curPtr);
        }
        content[curPtr] := ToLower(content[curPtr]);
      } else {
        if wordStart != None {
          content[curPtr] := 0;
          RecordWord(tab, content, wordStart.value, before, s, curPtr);
          wordStart := None;
        } else {
          ParsedNoWord(tab.View(), s, curPtr);
        }
      }
      curPtr := curPtr + 1;
    }
  }

  predicate IsAscii(s: seq<byte>) { forall i :: 0 <= i < |s| ==> s[i] <= ASCII_UPPER_BOUND }

  ghost predicate HasWords(s: seq<byte>)
    requires |s| < TWO_31
  {
    exists w: CString :: Occurrences(s, w, |s|) != []
  }

  // A text that gets a table: ASCII, with at least one word.
  ghost predicate Indexable(s: seq<byte>)
    requires |s| < TWO_31
  {
    IsAscii(s) && HasWords(s)
  }

  lemma EmptyMeansNoWords(t: Table<WordPositions>, s: seq<byte>)
    requires |s| < TWO_31 && Parsed(t, s, |s|)
    ensures NumElements(t) == 0 <==> !HasWords(s)
  {
    hide FNVHash64, Find, Wf, Occurrences;
    if NumElements(t) == 0 {
      if HasWords(s) {
        var w: CString :| Occurrences(s, w, |s|) != [];
        WfIsPlaced(t);
        LookInEntries(t, FNVHash64(w));
      }
    } else {
      WfIsPlaced(t);
      var kv := Entries(t)[0];
      EntriesAreFound(t, kv);
      assert Occurrences(s, kv.value.word, |s|) != [];
    }
  }

  lemma WfIsPlaced<V>(t: Table<V>)
    requires Wf(t)
    ensures Placed(t)
  {
  }

  // The text is everything before the first NUL.
  method ParseIntoWordPositionsTable(fileContents: array?<byte>, ghost n: nat) returns (tab: HashTable?<WordPositions>)
    requires fileContents != null ==> CStringAt(fileContents[..], 0, n) && n < TWO_31
    requires fileContents != null && IsAscii(fileContents[..n]) ==> HashesApart(WordsIn(fileContents[..n]))
    modifies fileContents
    ensures tab != null <==> fileContents != null && Indexable(old(fileContents[..n]))
    ensures tab != null ==>
              fresh(tab) && fresh(tab.Repr) && tab.Valid() && Parsed(tab.View(), old(fileContents[..n]), n)
  {
    hide HashTable.Valid, HashTable.View, Parsed, HashesApart, Occurrences, Wf, Scanned, WordsIn, HasWords;
    if fileContents == null {
      return null;
    }
    ghost var s := fileContents[..n];
    var fileLen := StrLen(fileContents, 0, n);
    if fileLen == 0 {
      assert s == [];
      NoWordsInNothing();
      return null;
    }
    var i := 0;
    while i < fileLen
      invariant 0 <= i <= fileLen && forall j :: 0 <= j < i ==> s[j] <= ASCII_UPPER_BOUND
    {
      if fileContents[i] == 0 || fileContents[i] > ASCII_UPPER_BOUND {
        assert fileContents[..][i] == s[i];
        return null;
      }
      i := i + 1;
    }
    var table := new HashTable<WordPositions>(WORD_TABLE_BUCKETS);
    InsertContent(table, fileContents, n);
    EmptyMeansNoWords(table.View(), s);
    table.Counted();
    tab := if table.numElements == 0 then null else table;
  }

  lemma NoWordsInNothing()
    ensures !HasWords([])
  {
  }
}

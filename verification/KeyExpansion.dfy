/** The key expansion of section 5.2 of FIPS 197, as a recurrence on the words of the schedule. */
module KeyExpansion {
  import opened GaloisField
  import opened Words
  import opened Fips197

  predicate IsKeyLength(n: nat) {
    n == 16 || n == 24 || n == 32
  }

  function RotWord(c: Column): Column {
    Column(c.b1, c.b2, c.b3, c.b0)
  }

  /** x^n in GF(2^8). */
  function PowerOfX(n: nat): bv8 {
    if n == 0 then 1 else Xtime(PowerOfX(n - 1))
  }

  /** Rcon[i], counted from 1 as in the standard. */
  function Rcon(i: nat): Column
    requires 1 <= i
  {
    Column(PowerOfX(i - 1), 0, 0, 0)
  }

  function SubWord(l: Layers, c: Column): Column {
    l.SubColumn(c)
  }

  /** Word i of the schedule of key. */
  function ExpandedWord(l: Layers, key: seq<bv8>, i: nat): Column
    requires IsKeyLength(|key|)
  {
    var nk := |key| / 4;
    if i < nk then
      Column(key[4 * i], key[4 * i + 1], key[4 * i + 2], key[4 * i + 3])
    else
      var temp := ExpandedWord(l, key, i - 1);
      AddColumn(ExpandedWord(l, key, i - nk),
                if i % nk == 0 then AddColumn(SubWord(l, RotWord(temp)), Rcon(i / nk))
                else if nk > 6 && i % nk == 4 then SubWord(l, temp)
                else temp)
  }

  /** The first n words of the schedule. */
  function ExpandedWords(l: Layers, key: seq<bv8>, n: nat): (w: seq<Column>)
    requires IsKeyLength(|key|)
    ensures |w| == n
  {
    if n == 0 then [] else ExpandedWords(l, key, n - 1) + [ExpandedWord(l, key, n - 1)]
  }

  lemma {:induction false} ExpandedWordsAt(l: Layers, key: seq<bv8>, n: nat, i: nat)
    requires IsKeyLength(|key|) && i < n
    ensures ExpandedWords(l, key, n)[i] == ExpandedWord(l, key, i)
  {
    if i < n - 1 {
      ExpandedWordsAt(l, key, n - 1, i);
    }
  }

  // The recurrence on the sequence of words, one branch a lemma. Word i is word k of step j, i = nk*j + k.

  lemma IndexInStep(nk: nat, j: nat, k: nat, i: nat)
    requires nk == 4 || nk == 6 || nk == 8
    requires k < nk && i == nk * j + k
    ensures i % nk == k && i / nk == j
  {
  }

  lemma RotWordStep(l: Layers, key: seq<bv8>, nk: nat, i: nat)
    requires IsKeyLength(|key|) && nk == |key| / 4
    requires 1 <= nk <= i && i % nk == 0 && 1 <= i / nk
    ensures ExpandedWord(l, key, i)
         == AddColumn(ExpandedWord(l, key, i - nk), AddColumn(SubWord(l, RotWord(ExpandedWord(l, key, i - 1))), Rcon(i / nk)))
  {
  }

  lemma SubWordStep(l: Layers, key: seq<bv8>, i: nat)
    requires |key| == 32
    requires 8 <= i && i % 8 == 4
    ensures ExpandedWord(l, key, i) == AddColumn(ExpandedWord(l, key, i - 8), SubWord(l, ExpandedWord(l, key, i - 1)))
  {
  }

  lemma PlainStep(l: Layers, key: seq<bv8>, nk: nat, i: nat)
    requires IsKeyLength(|key|) && nk == |key| / 4
    requires 1 <= nk <= i && i % nk != 0 && (nk == 8 ==> i % nk != 4)
    ensures ExpandedWord(l, key, i) == AddColumn(ExpandedWord(l, key, i - nk), ExpandedWord(l, key, i - 1))
  {
  }

  /** The recurrence at one word of a sequence of schedule words: temp is the word before. */
  ghost predicate First(l: Layers, w: seq<Column>, nk: nat, i: nat, rcon: Column) {
    1 <= nk <= i < |w| && w[i] == AddColumn(w[i - nk], AddColumn(SubWord(l, RotWord(w[i - 1])), rcon))
  }

  ghost predicate Middle(l: Layers, w: seq<Column>, nk: nat, i: nat) {
    1 <= nk <= i < |w| && w[i] == AddColumn(w[i - nk], SubWord(l, w[i - 1]))
  }

  ghost predicate Other(w: seq<Column>, nk: nat, i: nat) {
    1 <= nk <= i < |w| && w[i] == AddColumn(w[i - nk], w[i - 1])
  }

  lemma FirstFollows(l: Layers, key: seq<bv8>, w: seq<Column>, nk: nat, i: nat)
    requires IsKeyLength(|key|) && nk == |key| / 4 && w == ExpandedWords(l, key, |w|)
    requires 1 <= nk <= i < |w| && i % nk == 0 && 1 <= i / nk
    ensures First(l, w, nk, i, Rcon(i / nk))
  {
    RotWordStep(l, key, nk, i);
    ExpandedWordsAt(l, key, |w|, i);
    ExpandedWordsAt(l, key, |w|, i - 1);
    ExpandedWordsAt(l, key, |w|, i - nk);
  }

  lemma MiddleFollows(l: Layers, key: seq<bv8>, w: seq<Column>, i: nat)
    requires |key| == 32 && w == ExpandedWords(l, key, |w|)
    requires 8 <= i < |w| && i % 8 == 4
    ensures Middle(l, w, 8, i)
  {
    SubWordStep(l, key, i);
    ExpandedWordsAt(l, key, |w|, i);
    ExpandedWordsAt(l, key, |w|, i - 1);
    ExpandedWordsAt(l, key, |w|, i - 8);
  }

  lemma OtherFollows(l: Layers, key: seq<bv8>, w: seq<Column>, nk: nat, i: nat)
    requires IsKeyLength(|key|) && nk == |key| / 4 && w == ExpandedWords(l, key, |w|)
    requires 1 <= nk <= i < |w| && i % nk != 0 && (nk == 8 ==> i % nk != 4)
    ensures Other(w, nk, i)
  {
    PlainStep(l, key, nk, i);
    ExpandedWordsAt(l, key, |w|, i);
    ExpandedWordsAt(l, key, |w|, i - 1);
    ExpandedWordsAt(l, key, |w|, i - nk);
  }

  /** Words n to n + 3 follow from the words before them: the start of a step. */
  ghost predicate StepStart(l: Layers, w: seq<Column>, nk: nat, n: nat, rcon: Column) {
    First(l, w, nk, n, rcon) && Other(w, nk, n + 1) && Other(w, nk, n + 2) && Other(w, nk, n + 3)
  }

  /** Words n to n + 3 follow from the words before them: the second half of a step of eight. */
  ghost predicate StepMiddle(l: Layers, w: seq<Column>, n: nat) {
    Middle(l, w, 8, n) && Other(w, 8, n + 1) && Other(w, 8, n + 2) && Other(w, 8, n + 3)
  }

  /** Words n and n + 1 follow from the words before them: the end of a step of six. */
  ghost predicate StepEnd(w: seq<Column>, n: nat) {
    Other(w, 6, n) && Other(w, 6, n + 1)
  }

  lemma StartOfStep(l: Layers, key: seq<bv8>, w: seq<Column>, nk: nat, j: nat, n: nat)
    requires IsKeyLength(|key|) && nk == |key| / 4 && w == ExpandedWords(l, key, |w|)
    requires 1 <= j && n == nk * j && 4 <= nk <= n && n + 4 <= |w|
    ensures StepStart(l, w, nk, n, Rcon(j))
  {
    IndexInStep(nk, j, 0, n);
    FirstFollows(l, key, w, nk, n);
    OthersFollow(l, key, w, nk, j, n);
  }

  lemma OthersFollow(l: Layers, key: seq<bv8>, w: seq<Column>, nk: nat, j: nat, n: nat)
    requires IsKeyLength(|key|) && nk == |key| / 4 && w == ExpandedWords(l, key, |w|)
    requires 1 <= j && n == nk * j && 4 <= nk <= n && n + 4 <= |w|
    ensures Other(w, nk, n + 1) && Other(w, nk, n + 2) && Other(w, nk, n + 3)
  {
    IndexInStep(nk, j, 1, n + 1);
    IndexInStep(nk, j, 2, n + 2);
    IndexInStep(nk, j, 3, n + 3);
    OtherFollows(l, key, w, nk, n + 1);
    OtherFollows(l, key, w, nk, n + 2);
    OtherFollows(l, key, w, nk, n + 3);
  }

  lemma MiddleOfStepOfEight(l: Layers, key: seq<bv8>, w: seq<Column>, j: nat, n: nat)
    requires |key| == 32 && w == ExpandedWords(l, key, |w|)
    requires 1 <= j && n == 8 * j + 4 && n + 4 <= |w|
    ensures StepMiddle(l, w, n)
  {
    IndexInStep(8, j, 4, n);
    IndexInStep(8, j, 5, n + 1);
    IndexInStep(8, j, 6, n + 2);
    IndexInStep(8, j, 7, n + 3);
    MiddleFollows(l, key, w, n);
    OtherFollows(l, key, w, 8, n + 1);
    OtherFollows(l, key, w, 8, n + 2);
    OtherFollows(l, key, w, 8, n + 3);
  }

  lemma EndOfStepOfSix(l: Layers, key: seq<bv8>, w: seq<Column>, j: nat, n: nat)
    requires |key| == 24 && w == ExpandedWords(l, key, |w|)
    requires 1 <= j && n == 6 * j + 4 && n + 2 <= |w|
    ensures StepEnd(w, n)
  {
    IndexInStep(6, j, 4, n);
    IndexInStep(6, j, 5, n + 1);
    OtherFollows(l, key, w, 6, n);
    OtherFollows(l, key, w, 6, n + 1);
  }

  lemma UserKeyWord(l: Layers, key: seq<bv8>, n: nat, i: nat)
    requires IsKeyLength(|key|) && i < |key| / 4 && i < n
    ensures ExpandedWords(l, key, n)[i] == Column(key[4 * i], key[4 * i + 1], key[4 * i + 2], key[4 * i + 3])
  {
  }

  function Nr(key: seq<bv8>): nat {
    |key| / 4 + 6
  }

  /** The first n + 1 round keys of a sequence of schedule words. */
  function GroupKeys(w: seq<Column>, n: nat): (keys: seq<State>)
    requires 4 * n + 4 <= |w|
    ensures |keys| == n + 1
    ensures forall r: nat | r <= n :: keys[r] == State(w[4 * r], w[4 * r + 1], w[4 * r + 2], w[4 * r + 3])
  {
    var last := State(w[4 * n], w[4 * n + 1], w[4 * n + 2], w[4 * n + 3]);
    if n == 0 then [last] else GroupKeys(w, n - 1) + [last]
  }

  /** The key schedule of section 5.2: round keys 0 to Nr. */
  function KeySchedule(l: Layers, key: seq<bv8>): (keys: seq<State>)
    requires IsKeyLength(|key|)
    ensures |keys| == Nr(key) + 1
  {
    GroupKeys(ExpandedWords(l, key, 4 * Nr(key) + 4), Nr(key))
  }

  /** The schedule may be read off any longer run of the recurrence. */
  lemma KeyScheduleOf(l: Layers, key: seq<bv8>, w: seq<Column>)
    requires IsKeyLength(|key|) && w == ExpandedWords(l, key, |w|) && 4 * Nr(key) + 4 <= |w|
    ensures GroupKeys(w, Nr(key)) == KeySchedule(l, key)
  {
    var v := ExpandedWords(l, key, 4 * Nr(key) + 4);
    forall i: nat | i < |v|
      ensures v[i] == w[i]
    {
      ExpandedWordsAt(l, key, |v|, i);
      ExpandedWordsAt(l, key, |w|, i);
    }
    SameWordsSameKeys(v, w, Nr(key));
  }

  lemma SameWordsSameKeys(v: seq<Column>, w: seq<Column>, n: nat)
    requires 4 * n + 4 <= |v| && 4 * n + 4 <= |w|
    requires forall i: nat | i < 4 * n + 4 :: v[i] == w[i]
    ensures GroupKeys(v, n) == GroupKeys(w, n)
  {
  }

  lemma AddColumnAssoc(c: Column, d: Column, e: Column)
    ensures AddColumn(AddColumn(c, d), e) == AddColumn(c, AddColumn(d, e))
  {
    AddAssoc(c.b0, d.b0, e.b0);
    AddAssoc(c.b1, d.b1, e.b1);
    AddAssoc(c.b2, d.b2, e.b2);
    AddAssoc(c.b3, d.b3, e.b3);
  }
}

/**
 Dealing a deck: the Fisher–Yates shuffle and the construction of a fresh deck
 of face-down cards holding every symbol twice.

 The random source is an oracle. `js[i]` is the index that
 `Math.floor(Math.random() * (i + 1))` yields at the loop step for `i`, so the
 only thing assumed about the random numbers is that each lies in `0..i`.
 */
module Deck {
  import opened Types

  /** The eight symbols the hook deals when it is called without arguments,
      which is how the game board calls it. */
  const DefaultEmojis: seq<string> := ["🐶", "🐱", "🐼", "🦊", "🐸", "🐵", "🦁", "🐧"]

  /** `js` supplies one in-range random index for every step of a shuffle of `n` elements. */
  predicate ValidOracle(js: seq<int>, n: int)
  {
    |js| == n && forall i :: 0 <= i < n ==> 0 <= js[i] <= i
  }

  /** Exchanges positions `i` and `j`. */
  function Swap<T>(s: seq<T>, i: int, j: int): (r: seq<T>)
    requires 0 <= i < |s| && 0 <= j < |s|
    ensures |r| == |s| && r[i] == s[j] && r[j] == s[i]
    ensures forall k :: 0 <= k < |s| && k != i && k != j ==> r[k] == s[k]
    ensures multiset(r) == multiset(s)
  {
    s[i := s[j]][j := s[i]]
  }

  /** The shuffle loop from step `i` down to step 1. */
  function ShuffleFrom<T>(s: seq<T>, i: int, js: seq<int>): (r: seq<T>)
    requires ValidOracle(js, |s|) && i < |s|
    ensures |r| == |s|
    ensures multiset(r) == multiset(s)
    decreases i
  {
    if i <= 0 then s else ShuffleFrom(Swap(s, i, js[i]), i - 1, js)
  }

  /** Fisher–Yates: for every choice of in-range random indices the result is a
      permutation of the input. */
  function Shuffle<T>(s: seq<T>, js: seq<int>): (r: seq<T>)
    requires ValidOracle(js, |s|)
    ensures |r| == |s|
    ensures multiset(r) == multiset(s)
  {
    ShuffleFrom(s, |s| - 1, js)
  }

  /** The shuffle as the source writes it: copy into an array, then swap in
      place from the last index down to index 1. */
  method ShuffleArray<T>(s: seq<T>, js: seq<int>) returns (r: seq<T>)
    requires ValidOracle(js, |s|)
    ensures r == Shuffle(s, js)
    ensures multiset(r) == multiset(s)
  {
    var arr := new T[|s|](k requires 0 <= k < |s| => s[k]);
    assert arr[..] == s;
    var i := arr.Length - 1;
    while i > 0
      invariant -1 <= i < arr.Length == |s|
      invariant ShuffleFrom(arr[..], i, js) == Shuffle(s, js)
    {
      var j := js[i];
      ghost var before := arr[..];
      assert ShuffleFrom(before, i, js) == ShuffleFrom(Swap(before, i, j), i - 1, js);
      arr[i], arr[j] := arr[j], arr[i];
      assert arr[..] == Swap(before, i, j);
      i := i - 1;
    }
    r := arr[..];
  }

  /** The symbols of a row of cards, in order. */
  function Symbols(cards: seq<Card>): seq<string>
  {
    seq(|cards|, k requires 0 <= k < |cards| => cards[k].emoji)
  }

  /** A freshly dealt deck for `emojis`: positional ids, every card face down,
      every symbol twice as often as in `emojis`. */
  predicate Dealt(cards: seq<Card>, emojis: seq<string>)
  {
    && |cards| == 2 * |emojis|
    && (forall k :: 0 <= k < |cards| ==> cards[k].id == k && !cards[k].isFlipped && !cards[k].isMatched)
    && multiset(Symbols(cards)) == multiset(emojis) + multiset(emojis)
  }

  /** Pairs up the symbols, shuffles them and numbers the cards by position. */
  function CreateCards(emojis: seq<string>, js: seq<int>): (cards: seq<Card>)
    requires ValidOracle(js, 2 * |emojis|)
    ensures Dealt(cards, emojis)
    ensures forall x :: multiset(Symbols(cards))[x] == 2 * multiset(emojis)[x]
  {
    var shuffled := Shuffle(emojis + emojis, js);
    var cards := seq(|shuffled|, k requires 0 <= k < |shuffled| => Card(k, shuffled[k], false, false));
    assert Symbols(cards) == shuffled;
    cards
  }
}

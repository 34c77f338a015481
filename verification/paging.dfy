/** Keyset paging through a conversation. */
module Paging {
  // The latest page, and the pages before it, each anchored at the oldest message that is shown. Messages
  // are ordered by sent time and id, which together are unique; what is proved is that the window shown
  // is always the end of the history, whatever arrives meanwhile.

  import opened Ids

  const PAGE_SIZE := 100

  // The paging key of a message; ids are compared as the database compares them.
  datatype Key = Key(sentAt: int, id: LogicalId)

  predicate Before(a: Key, b: Key) {
    a.sentAt < b.sentAt || (a.sentAt == b.sentAt && a.id < b.id)
  }

  /** A conversation's messages by (sent time, id), which are unique. */
  ghost predicate Ordered(history: seq<Key>) {
    forall i, j :: 0 <= i < j < |history| ==> Before(history[i], history[j])
  }

  /** The last page of a list in ascending order. */
  function Last(history: seq<Key>): (page: seq<Key>)
    ensures |page| <= PAGE_SIZE
    ensures history != [] ==> page != []
  {
    if |history| <= PAGE_SIZE then history else history[|history| - PAGE_SIZE..]
  }

  function Older(history: seq<Key>, key: Key): seq<Key> {
    if history == [] then []
    else (if Before(history[0], key) then [history[0]] else []) + Older(history[1..], key)
  }

  /** messages. */
  function Latest(history: seq<Key>): seq<Key> {
    Last(history)
  }

  /** messages_before. */
  function PageBefore(history: seq<Key>, key: Key): seq<Key> {
    Last(Older(history, key))
  }

  /** The window shown after loading n older pages above the latest one. */
  function Loaded(history: seq<Key>, n: nat): seq<Key> {
    if n == 0 then Latest(history)
    else
      var shown := Loaded(history, n - 1);
      if shown == [] then [] else PageBefore(history, shown[0]) + shown
  }

  lemma {:induction false} OlderIsPrefix(history: seq<Key>, k: nat)
    requires Ordered(history) && k < |history|
    ensures Older(history, history[k]) == history[..k]
    decreases |history|
  {
    if k == 0 {
      NoneOlder(history, history[0]);
    } else {
      assert Before(history[0], history[k]);
      OlderIsPrefix(history[1..], k - 1);
      assert history[..k] == [history[0]] + history[1..][..k - 1];
    }
  }

  lemma {:induction false} NoneOlder(history: seq<Key>, key: Key)
    requires forall i :: 0 <= i < |history| ==> !Before(history[i], key)
    ensures Older(history, key) == []
  {
    if history == [] {
    } else {
      assert !Before(history[0], key);
      forall i | 0 <= i < |history[1..]| ensures !Before(history[1..][i], key) {
        assert history[1..][i] == history[i + 1];
      }
      NoneOlder(history[1..], key);
    }
  }

  /** How many messages n older pages above the latest one show. */
  function Size(history: seq<Key>, n: nat): (size: nat)
    ensures size <= |history|
  {
    var size := PAGE_SIZE + if n == 0 then 0 else Size(history, n - 1);
    if |history| < size then |history| else size
  }

  lemma {:induction false} SizeIs(history: seq<Key>, n: nat)
    ensures Size(history, n) == if |history| < (n + 1) * PAGE_SIZE then |history| else (n + 1) * PAGE_SIZE
  {
    if n == 0 {
    } else {
      SizeIs(history, n - 1);
    }
  }

  lemma OnePageMore(history: seq<Key>, k: nat)
    requires Ordered(history) && k < |history|
    ensures var m := if k < PAGE_SIZE then k else PAGE_SIZE;
            && |PageBefore(history, history[k])| == m
            && PageBefore(history, history[k]) + history[k..] == history[k - m..]
  {
    OlderIsPrefix(history, k);
    var m := if k < PAGE_SIZE then k else PAGE_SIZE;
    assert Last(history[..k]) == history[k - m..k];
  }

  /** After n older pages the window is exactly the last n + 1 pages: no gap, no repetition, in order. */
  lemma {:induction false} LoadedIsSuffix(history: seq<Key>, n: nat)
    requires Ordered(history)
    ensures Loaded(history, n) == history[|history| - Size(history, n)..]
  {
    if n == 0 {
    } else {
      LoadedIsSuffix(history, n - 1);
      if history != [] {
        OnePageMore(history, |history| - Size(history, n - 1));
      }
    }
  }

  /** A page shorter than the page size means the whole history is shown. */
  lemma ShortPageMeansExhausted(history: seq<Key>, n: nat)
    requires Ordered(history) && Loaded(history, n) != []
    requires |PageBefore(history, Loaded(history, n)[0])| < PAGE_SIZE
    ensures Loaded(history, n + 1) == history
  {
    LoadedIsSuffix(history, n);
    LoadedIsSuffix(history, n + 1);
    OnePageMore(history, |history| - Size(history, n));
  }

  /** Messages that arrive later than the anchor do not disturb the next older page. */
  lemma {:induction false} ArrivalsDoNotShift(history: seq<Key>, more: seq<Key>, key: Key)
    requires forall i :: 0 <= i < |more| ==> !Before(more[i], key)
    ensures PageBefore(history + more, key) == PageBefore(history, key)
  {
    NoneOlder(more, key);
    OlderConcat(history, more, key);
  }

  lemma {:induction false} OlderConcat(a: seq<Key>, b: seq<Key>, key: Key)
    ensures Older(a + b, key) == Older(a, key) + Older(b, key)
  {
    if a == [] {
      assert a + b == b;
    } else {
      assert (a + b)[1..] == a[1..] + b;
      OlderConcat(a[1..], b, key);
    }
  }
}

/** The web client's list of recently visited sessions (`useHistoryStore`):
    most recent first, at most `MAX_HISTORY_ITEMS` entries, one entry per
    numeric id. Each reducer is a function from the old list to the new one;
    the clock (`Date.now()`) is a parameter and the browser persistence is not
    modelled. */
module HistoryStore {

  const MAX_HISTORY_ITEMS: nat := 10

  datatype HistoryItem = HistoryItem(numericId: string, stakes: string, timestamp: int)

  /** `history.filter(h => h.numericId !== numericId)`. */
  function Without(history: seq<HistoryItem>, numericId: string): seq<HistoryItem> {
    if |history| == 0 then []
    else (if history[0].numericId == numericId then [] else [history[0]]) + Without(history[1..], numericId)
  }

  /** `slice(0, n)`. */
  function Take(s: seq<HistoryItem>, n: nat): seq<HistoryItem> {
    if |s| <= n then s else s[..n]
  }

  /** `addToHistory`: the visited session, stamped `now`, goes in front of the
      entries with other ids, and the list is cut to the cap. */
  function AddToHistory(history: seq<HistoryItem>, numericId: string, stakes: string, now: int): (r: seq<HistoryItem>)
    ensures 0 < |r| <= MAX_HISTORY_ITEMS && r[0] == HistoryItem(numericId, stakes, now)
    ensures forall j :: 1 <= j < |r| ==> r[j].numericId != numericId && r[j] in history
  {
    WithoutMembers(history, numericId);
    Take([HistoryItem(numericId, stakes, now)] + Without(history, numericId), MAX_HISTORY_ITEMS)
  }

  /** `removeFromHistory`. */
  function RemoveFromHistory(history: seq<HistoryItem>, numericId: string): (r: seq<HistoryItem>)
    ensures forall x :: x in r <==> x in history && x.numericId != numericId
  {
    WithoutMembers(history, numericId);
    Without(history, numericId)
  }

  /** `clearHistory`. */
  function ClearHistory(history: seq<HistoryItem>): (r: seq<HistoryItem>)
    ensures |r| == 0
  {
    []
  }

  /** No numeric id occurs twice. */
  ghost predicate NoDuplicateIds(h: seq<HistoryItem>) {
    forall i, j :: 0 <= i < j < |h| ==> h[i].numericId != h[j].numericId
  }

  // ---------------------------------------------------------------------------
  // The filter

  /** The filter keeps exactly the entries with another id, and no more. */
  lemma {:induction false} WithoutMembers(h: seq<HistoryItem>, numericId: string)
    ensures forall x :: x in Without(h, numericId) <==> x in h && x.numericId != numericId
    ensures |Without(h, numericId)| <= |h|
  {
    if |h| > 0 {
      WithoutMembers(h[1..], numericId);
      assert h == [h[0]] + h[1..];
    }
  }

  /** The filter keeps the relative order: it distributes over concatenation. */
  lemma {:induction false} WithoutAppend(a: seq<HistoryItem>, b: seq<HistoryItem>, numericId: string)
    ensures Without(a + b, numericId) == Without(a, numericId) + Without(b, numericId)
  {
    if |a| == 0 {
      assert a + b == b;
    } else {
      var head := if a[0].numericId == numericId then [] else [a[0]];
      assert (a + b)[0] == a[0];
      assert (a + b)[1..] == a[1..] + b;
      WithoutAppend(a[1..], b, numericId);
      calc {
        Without(a + b, numericId);
        head + Without(a[1..] + b, numericId);
        head + (Without(a[1..], numericId) + Without(b, numericId));
        (head + Without(a[1..], numericId)) + Without(b, numericId);
      }
    }
  }

  /** A list without the id is left as it is. */
  lemma {:induction false} WithoutAbsent(h: seq<HistoryItem>, numericId: string)
    requires forall j :: 0 <= j < |h| ==> h[j].numericId != numericId
    ensures Without(h, numericId) == h
  {
    if |h| > 0 {
      WithoutAbsent(h[1..], numericId);
      assert h == [h[0]] + h[1..];
    }
  }

  /** The filter never introduces a duplicate id. */
  lemma {:induction false} WithoutNoDuplicates(h: seq<HistoryItem>, numericId: string)
    requires NoDuplicateIds(h)
    ensures NoDuplicateIds(Without(h, numericId))
  {
    if |h| > 0 {
      var rest := Without(h[1..], numericId);
      assert NoDuplicateIds(h[1..]);
      WithoutNoDuplicates(h[1..], numericId);
      WithoutMembers(h[1..], numericId);
      forall j | 0 <= j < |rest| ensures rest[j].numericId != h[0].numericId {
        assert rest[j] in h[1..];
        var i :| 0 <= i < |h[1..]| && h[1..][i] == rest[j];
        assert h[i + 1] == rest[j];
      }
    }
  }

  // ---------------------------------------------------------------------------
  // The reducers

  /** After `addToHistory` the visited session is the first entry, stamped
      `now`, and no other entry has its id; the list holds at most
      `MAX_HISTORY_ITEMS` entries; the remaining entries are the previous
      entries with other ids, in their previous order, cut only at the end. */
  lemma AddToHistoryFacts(history: seq<HistoryItem>, numericId: string, stakes: string, now: int)
    ensures var r := AddToHistory(history, numericId, stakes, now);
      var others := Without(history, numericId);
      1 <= |r| <= MAX_HISTORY_ITEMS
      && r[0] == HistoryItem(numericId, stakes, now)
      && (forall j :: 1 <= j < |r| ==> r[j].numericId != numericId)
      && |r| == (if |others| + 1 <= MAX_HISTORY_ITEMS then |others| + 1 else MAX_HISTORY_ITEMS)
      && r[1..] == others[..|r| - 1]
      && forall x :: x in r[1..] ==> x in history
  {
    var others := Without(history, numericId);
    WithoutMembers(history, numericId);
    var r := AddToHistory(history, numericId, stakes, now);
    assert r[1..] == others[..|r| - 1];
    forall j | 1 <= j < |r| ensures r[j].numericId != numericId {
      assert r[j] == others[j - 1];
      assert others[j - 1] in others;
    }
    forall x | x in r[1..] ensures x in history {
      assert x in others;
    }
  }

  /** An entry with another id that is among the nine most recent such
      entries survives `addToHistory`; only older ones can fall off. */
  lemma AddToHistoryKeepsRecent(history: seq<HistoryItem>, numericId: string, stakes: string, now: int, j: nat)
    requires j < |Without(history, numericId)| && j + 1 < MAX_HISTORY_ITEMS
    ensures var r := AddToHistory(history, numericId, stakes, now);
      j + 1 < |r| && r[j + 1] == Without(history, numericId)[j]
  {
  }

  /** `addToHistory` never creates a duplicate id. */
  lemma AddToHistoryNoDuplicates(history: seq<HistoryItem>, numericId: string, stakes: string, now: int)
    requires NoDuplicateIds(history)
    ensures NoDuplicateIds(AddToHistory(history, numericId, stakes, now))
  {
    var others := Without(history, numericId);
    var r := AddToHistory(history, numericId, stakes, now);
    AddToHistoryFacts(history, numericId, stakes, now);
    WithoutNoDuplicates(history, numericId);
    forall i, j | 0 <= i < j < |r| ensures r[i].numericId != r[j].numericId {
      if i > 0 {
        assert r[i] == others[i - 1] && r[j] == others[j - 1];
      }
    }
  }

  /** Visiting the most recent session again only refreshes its entry. */
  lemma AddToHistoryAgain(history: seq<HistoryItem>, stakes: string, now: int)
    requires NoDuplicateIds(history) && 0 < |history| <= MAX_HISTORY_ITEMS
    ensures var first := history[0];
      AddToHistory(history, first.numericId, stakes, now) == [HistoryItem(first.numericId, stakes, now)] + history[1..]
  {
    var id := history[0].numericId;
    assert history == [history[0]] + history[1..];
    assert forall j :: 0 <= j < |history[1..]| ==> history[1..][j].numericId != id by {
      forall j | 0 <= j < |history[1..]| ensures history[1..][j].numericId != id {
        assert history[1..][j] == history[j + 1];
      }
    }
    WithoutAbsent(history[1..], id);
  }

  /** `removeFromHistory` leaves no entry with the id and keeps every other
      entry (in order, as `WithoutAppend` shows), and a second removal changes
      nothing. */
  lemma RemoveFromHistoryFacts(history: seq<HistoryItem>, numericId: string)
    ensures var r := RemoveFromHistory(history, numericId);
      (forall j :: 0 <= j < |r| ==> r[j].numericId != numericId)
      && (forall x :: x in r <==> x in history && x.numericId != numericId)
      && |r| <= |history|
      && RemoveFromHistory(r, numericId) == r
      && (NoDuplicateIds(history) ==> NoDuplicateIds(r))
  {
    var r := RemoveFromHistory(history, numericId);
    WithoutMembers(history, numericId);
    forall j | 0 <= j < |r| ensures r[j].numericId != numericId {
      assert r[j] in r;
    }
    WithoutAbsent(r, numericId);
    if NoDuplicateIds(history) {
      WithoutNoDuplicates(history, numericId);
    }
  }

  /** `clearHistory` empties the list. */
  lemma ClearHistoryEmpties(history: seq<HistoryItem>)
    ensures ClearHistory(history) == [] && NoDuplicateIds(ClearHistory(history))
  {
  }
}

/**
 The bounded pagination loop that the admission uses three times, for workflow runs, for the jobs of an
 attempt and for source workflow runs (scripts/fanmind_orchestrator_admission.py:795-819, 822-849, 898-924).
 */
module Pagination {
  import opened Wrappers

  const PAGE_SIZE: nat := 100
  const LAST_PAGE: nat := 10
  const MAX_TOTAL: nat := 1000

  /**
   One answer: unusable, or a page of entries with the announced total; `typed` says that every entry is an object.
   */
  datatype Answer<+T> = Malformed | Page(entries: seq<T>, total: int, typed: bool)

  datatype PageError = Unreadable | Unbounded | ChangedDuringRead | Incomplete

  predicate Usable<T>(answer: Answer<T>) {
    answer.Page? && answer.total >= 0
  }

  /** What the loop returns from page `page` on. */
  function CollectFrom<T>(get: nat -> Answer<T>, page: nat, collected: seq<T>,
                          expected: Option<int>): Result<seq<T>, PageError>
    decreases LAST_PAGE + 1 - page
  {
    if page > LAST_PAGE then Err(Incomplete)
    else
      var answer := get(page);
      if !Usable(answer) then Err(Unreadable)
      else if expected.None? && answer.total > MAX_TOTAL then Err(Unbounded)
      else if expected.Some? && answer.total != expected.value then Err(ChangedDuringRead)
      else if !answer.typed then Err(Unreadable)
      else
        var longer := collected + answer.entries;
        if |answer.entries| < PAGE_SIZE then if |longer| == answer.total then Ok(longer) else Err(Incomplete)
        else CollectFrom(get, page + 1, longer, Some(answer.total))
  }

  method Collect<T>(get: nat -> Answer<T>) returns (result: Result<seq<T>, PageError>)
    ensures result == CollectFrom(get, 1, [], None)
  {
    var collected: seq<T>, expected: Option<int> := [], None;
    for page := 1 to LAST_PAGE + 1
      invariant CollectFrom(get, 1, [], None) == CollectFrom(get, page, collected, expected)
    {
      var answer := get(page);
      if !Usable(answer) {
        return Err(Unreadable);
      }
      if expected.None? {
        if answer.total > MAX_TOTAL {
          return Err(Unbounded);
        }
        expected := Some(answer.total);
      } else if answer.total != expected.value {
        return Err(ChangedDuringRead);
      }
      if !answer.typed {
        return Err(Unreadable);
      }
      collected := collected + answer.entries;
      if |answer.entries| < PAGE_SIZE {
        if |collected| != expected.value {
          return Err(Incomplete);
        }
        return Ok(collected);
      }
    }
    result := Err(Incomplete);
  }

  // ----- a fixed list -----

  function Least(a: nat, b: nat): nat { if a < b then a else b }

  /** A server that holds a fixed list and serves it in pages of 100. */
  function Serve<T>(list: seq<T>, page: nat): Answer<T> {
    var from := if page == 0 then 0 else Least((page - 1) * PAGE_SIZE, |list|);
    Page(list[from..Least(from + PAGE_SIZE, |list|)], |list|, true)
  }

  lemma {:induction false} ServedFrom<T>(get: nat -> Answer<T>, list: seq<T>, page: nat)
    requires forall p: nat :: get(p) == Serve(list, p)
    requires 1 <= page <= LAST_PAGE + 1 && (page - 1) * PAGE_SIZE <= |list| <= MAX_TOTAL
    ensures CollectFrom(get, page, list[..(page - 1) * PAGE_SIZE], if page == 1 then None else Some(|list|)) ==
      if |list| < MAX_TOTAL then Ok(list) else Err(Incomplete)
    decreases LAST_PAGE + 1 - page
  {
    if page <= LAST_PAGE {
      var from := (page - 1) * PAGE_SIZE;
      assert get(page) == Serve(list, page);
      if |list| - from < PAGE_SIZE {
        assert Serve(list, page).entries == list[from..];
        assert list[..from] + list[from..] == list;
      } else {
        assert list[..from] + list[from..from + PAGE_SIZE] == list[..page * PAGE_SIZE];
        ServedFrom(get, list, page + 1);
      }
    }
  }

  /**
   Against a fixed list the loop returns the list exactly when it has fewer than 1000 entries, and refuses
   otherwise.
   */
  lemma FixedListIsReadExactlyBelowThousand<T>(get: nat -> Answer<T>, list: seq<T>)
    requires forall p: nat :: get(p) == Serve(list, p)
    ensures CollectFrom(get, 1, [], None) ==
      if |list| < MAX_TOTAL then Ok(list) else if |list| == MAX_TOTAL then Err(Incomplete) else Err(Unbounded)
  {
    if |list| <= MAX_TOTAL {
      ServedFrom(get, list, 1);
      assert list[..0] == [];
    } else {
      assert get(1) == Serve(list, 1);
    }
  }

  // ----- arbitrary answers -----

  /** The entries of `count` pages from `first` on, in order. */
  function Entries<T>(get: nat -> Answer<T>, first: nat, count: nat): seq<T>
    decreases count
  {
    if count == 0 then []
      else (if get(first).Page? then get(first).entries else []) + Entries(get, first + 1, count - 1)
  }

  /**
   Against arbitrary answers, a returned list consists of the entries of the pages read, every one of those
   pages announced exactly its length, all pages before the last were full, and the last was not.
   */
  lemma {:induction false} ReturnedListMatchesEveryPage<T>(get: nat -> Answer<T>, page: nat, collected: seq<T>,
                                                           expected: Option<int>)
      returns (count: nat)
    requires CollectFrom(get, page, collected, expected).Ok?
    ensures 1 <= count && page + count <= LAST_PAGE + 1
    ensures var list := CollectFrom(get, page, collected, expected).value;
            list == collected + Entries(get, page, count) &&
            (expected.Some? ==> expected.value == |list|) &&
            (forall k :: page <= k < page + count ==> get(k).Page? && get(k).typed && get(k).total == |list|) &&
            (forall k :: page <= k < page + count - 1 ==> |get(k).entries| >= PAGE_SIZE) &&
            |get(page + count - 1).entries| < PAGE_SIZE
    decreases LAST_PAGE + 1 - page
  {
    var answer := get(page);
    var longer := collected + answer.entries;
    if |answer.entries| < PAGE_SIZE {
      count := 1;
      assert Entries(get, page + 1, 0) == [];
      assert longer == collected + Entries(get, page, 1);
    } else {
      assert CollectFrom(get, page, collected, expected) == CollectFrom(get, page + 1, longer, Some(answer.total));
      var rest := ReturnedListMatchesEveryPage(get, page + 1, longer, Some(answer.total));
      count := rest + 1;
      assert Entries(get, page, count) == answer.entries + Entries(get, page + 1, rest);
      assert longer + Entries(get, page + 1, rest) == collected + (answer.entries + Entries(get, page + 1, rest));
    }
  }

  // ----- every outcome -----

  /** Pages 1 to `p - 1` are readable and full, and announce one total of at most 1000. */
  ghost predicate FullBefore<T>(get: nat -> Answer<T>, p: nat) {
    forall k: nat :: 1 <= k < p ==>
      get(1).Page? && get(k).Page? && get(k).typed && |get(k).entries| >= 100 &&
      0 <= get(k).total == get(1).total <= 1000
  }

  /** What page `p` makes of the reading when all pages before it were full. */
  ghost predicate Decides<T>(get: nat -> Answer<T>, p: nat, result: Result<seq<T>, PageError>) {
    match get(p)
    case Malformed => result == Err(Unreadable)
    case Page(entries, total, typed) =>
      if total < 0 then result == Err(Unreadable)
      else if p == 1 && total > 1000 then result == Err(Unbounded)
      else if get(1).Page? && total != get(1).total then result == Err(ChangedDuringRead)
      else if !typed then result == Err(Unreadable)
      else if |entries| < 100 then
        result == if |Entries(get, 1, p)| == total then Ok(Entries(get, 1, p)) else Err(Incomplete)
      else p == 10 && result == Err(Incomplete)
  }

  lemma {:induction false} EntriesExtend<T>(get: nat -> Answer<T>, first: nat, count: nat)
    ensures Entries(get, first, count + 1) ==
      Entries(get, first, count) + if get(first + count).Page? then get(first + count).entries else []
    decreases count
  {
    if count > 0 {
      EntriesExtend(get, first + 1, count - 1);
    }
  }

  lemma {:induction false} CollectDecides<T>(get: nat -> Answer<T>, page: nat) returns (p: nat)
    requires 1 <= page <= LAST_PAGE && FullBefore(get, page)
    ensures page <= p <= 10 && FullBefore(get, p)
    ensures Decides(get, p,
      CollectFrom(get, page, Entries(get, 1, page - 1), if page == 1 then None else Some(get(1).total)))
    decreases LAST_PAGE - page
  {
    var answer := get(page);
    EntriesExtend(get, 1, page - 1);
    p := page;
    if page < LAST_PAGE && FullBefore(get, page + 1) {
      p := CollectDecides(get, page + 1);
    }
  }

  /**
   Against arbitrary answers the first page that is not full and consistent decides: unreadable, too large a total, a
   changed total, a count that does not match, or the complete list; ten full pages are incomplete.
   */
  lemma CollectExactly<T>(get: nat -> Answer<T>) returns (p: nat)
    ensures 1 <= p <= 10 && FullBefore(get, p) && Decides(get, p, CollectFrom(get, 1, [], None))
  {
    p := CollectDecides(get, 1);
  }
}

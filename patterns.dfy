/** The weather-pattern search that both revisions of the weather model run, stated once
    over the type of instants `T`, the type of weathers `W` and the step `next` from one
    weather period to the following one. A revision supplies its weather as a function of
    the instant and its own first instant and step. */
module Patterns {
  import opened Primitives

  /** `first` advanced `k` periods by `next`. */
  function Step<T>(next: T -> T, first: T, k: nat): T
    decreases k
  {
    if k == 0 then first else next(Step(next, first, k - 1))
  }

  /** The search loop: from `time`, whose weather is `prevWeather`, advance by `next` at
      most `remaining` times and stop at the first instant whose weather is in `curSet`
      while the weather of the instant before it is in `prevSet`. */
  function SearchFrom<T, W(==)>(weather: T -> W, next: T -> T, time: T, prevWeather: W,
                                prevSet: seq<W>, curSet: seq<W>, remaining: nat): Option<T>
    decreases remaining
  {
    if remaining == 0 then None
    else
      var t := next(time);
      var current := weather(t);
      if prevWeather in prevSet && current in curSet then Some(t)
      else SearchFrom(weather, next, t, current, prevSet, curSet, remaining - 1)
  }

  /** One round of the search loop, with the weather of the instant reached given as
      `current`. */
  lemma SearchFromStep<T, W>(weather: T -> W, next: T -> T, time: T, prevWeather: W,
                                 prevSet: seq<W>, curSet: seq<W>, remaining: nat, current: W)
    requires remaining > 0
    requires current == weather(next(time))
    ensures prevWeather in prevSet && current in curSet
            ==> SearchFrom(weather, next, time, prevWeather, prevSet, curSet, remaining) == Some(next(time))
    ensures !(prevWeather in prevSet && current in curSet)
            ==> SearchFrom(weather, next, time, prevWeather, prevSet, curSet, remaining)
                == SearchFrom(weather, next, next(time), current, prevSet, curSet, remaining - 1)
  {
  }

  /** The whole search of `limit` steps from `first`. */
  function Search<T, W(==)>(weather: T -> W, next: T -> T, first: T, prevSet: seq<W>, curSet: seq<W>,
                            limit: nat): Option<T>
  {
    SearchFrom(weather, next, first, weather(first), prevSet, curSet, limit)
  }

  /** The pattern holds at the `k`-th instant after `first`. */
  predicate Matches<T, W(==)>(weather: T -> W, next: T -> T, first: T, prevSet: seq<W>, curSet: seq<W>, k: nat)
    requires k >= 1
  {
    weather(Step(next, first, k - 1)) in prevSet && weather(Step(next, first, k)) in curSet
  }

  /** The pattern holds at none of the instants after the `lo`-th up to the `hi`-th. */
  ghost predicate NoMatchIn<T, W>(weather: T -> W, next: T -> T, first: T, prevSet: seq<W>,
                                      curSet: seq<W>, lo: nat, hi: nat)
  {
    forall k :: lo < k <= hi ==> !Matches(weather, next, first, prevSet, curSet, k)
  }

  /** From the `m`-th instant with `n` steps left, the loop finds the first match among
      the next `n` instants, the last of which is the `hi`-th. */
  lemma {:induction false} SearchFromFirstMatch<T, W>(weather: T -> W, next: T -> T, first: T,
                                                          prevSet: seq<W>, curSet: seq<W>, m: nat, n: nat, hi: nat)
    requires hi == m + n
    ensures var r := SearchFrom(weather, next, Step(next, first, m), weather(Step(next, first, m)), prevSet, curSet, n);
            && (r.None? <==> NoMatchIn(weather, next, first, prevSet, curSet, m, hi))
            && (r.Some? ==> exists k :: m < k <= hi && r.value == Step(next, first, k)
                                        && Matches(weather, next, first, prevSet, curSet, k)
                                        && NoMatchIn(weather, next, first, prevSet, curSet, m, k - 1))
    decreases n
  {
    if n > 0 {
      assert next(Step(next, first, m)) == Step(next, first, m + 1);
      if !Matches(weather, next, first, prevSet, curSet, m + 1) {
        SearchFromFirstMatch(weather, next, first, prevSet, curSet, m + 1, n - 1, hi);
      }
    }
  }

  /** The search returns the first of the `limit` instants after `first` at which the
      pattern holds, and None exactly when it holds at none of them. */
  lemma SearchIsFirstMatch<T, W>(weather: T -> W, next: T -> T, first: T, prevSet: seq<W>,
                                     curSet: seq<W>, limit: nat)
    ensures var r := Search(weather, next, first, prevSet, curSet, limit);
            && (limit == 0 ==> r.None?)
            && (r.None? <==> NoMatchIn(weather, next, first, prevSet, curSet, 0, limit))
            && (r.Some? ==> exists k :: 0 < k <= limit && r.value == Step(next, first, k)
                                        && Matches(weather, next, first, prevSet, curSet, k)
                                        && NoMatchIn(weather, next, first, prevSet, curSet, 0, k - 1))
  {
    assert Step(next, first, 0) == first;
    SearchFromFirstMatch(weather, next, first, prevSet, curSet, 0, limit, limit);
  }

  /** Conversely, the first instant at which the pattern holds is the result. */
  lemma SearchFinds<T, W>(weather: T -> W, next: T -> T, first: T, prevSet: seq<W>,
                              curSet: seq<W>, limit: nat, k: nat)
    requires 1 <= k <= limit
    requires Matches(weather, next, first, prevSet, curSet, k)
    requires NoMatchIn(weather, next, first, prevSet, curSet, 0, k - 1)
    ensures Search(weather, next, first, prevSet, curSet, limit) == Some(Step(next, first, k))
  {
    SearchIsFirstMatch(weather, next, first, prevSet, curSet, limit);
  }

  /** The results of up to `n` successive searches, each from `after` the previous
      result. */
  function NextPatterns<T>(search: T -> Option<T>, after: T -> T, n: nat, start: T): seq<T>
    decreases n
  {
    if n == 0 then []
    else match search(start)
      case None => []
      case Some(t) => [t] + NextPatterns(search, after, n - 1, after(t))
  }

  /** One round of the loop that collects `NextPatterns`: with `done` collected so far
      and `n` searches left from `time`, a found result is appended and the rest continue
      from `after` it, while a failed search leaves nothing more to collect. */
  lemma NextPatternsStep<T>(search: T -> Option<T>, after: T -> T, n: nat, time: T, done: seq<T>, total: seq<T>)
    requires n > 0
    requires done + NextPatterns(search, after, n, time) == total
    ensures search(time).None? ==> done == total
    ensures search(time).Some? ==> (done + [search(time).value])
                                   + NextPatterns(search, after, n - 1, after(search(time).value)) == total
  {
    if search(time).Some? {
      var t := search(time).value;
      assert done + ([t] + NextPatterns(search, after, n - 1, after(t))) == total;
    }
  }

  /** The successive results: at most `n`; the first is the search result from `start`
      and each next one the search result from `after` the previous one; fewer than `n`
      only when the next search fails. When a search answers at most `slack` before its
      start (measured by `key`) and `after` moves `gap` (at least `slack`) forward, each
      result lies at least `gap - slack` after the previous one and at most `slack`
      before `start`. */
  lemma {:induction false} NextPatternsChained<T>(search: T -> Option<T>, after: T -> T, key: T -> int,
                                                  gap: int, slack: nat, n: nat, start: T)
    requires forall t :: search(t).Some? ==> key(t) - slack <= key(search(t).value)
    requires forall t :: key(after(t)) == key(t) + gap
    requires slack <= gap
    ensures var r := NextPatterns(search, after, n, start);
            && |r| <= n
            && (|r| > 0 ==> search(start) == Some(r[0]))
            && (forall i :: 0 <= i < |r| - 1 ==> search(after(r[i])) == Some(r[i + 1]))
            && (|r| < n ==> search(if r == [] then start else after(r[|r| - 1])) == None)
            && (forall i :: 0 <= i < |r| ==> key(start) - slack <= key(r[i]))
            && (forall i :: 0 <= i < |r| - 1 ==> key(r[i]) + gap - slack <= key(r[i + 1]))
    decreases n
  {
    if n > 0 {
      match search(start)
      case None =>
      case Some(t) =>
        NextPatternsChained(search, after, key, gap, slack, n - 1, after(t));
        var rest := NextPatterns(search, after, n - 1, after(t));
        var r := [t] + rest;
        assert forall i :: 1 <= i < |r| ==> r[i] == rest[i - 1];
    }
  }
}

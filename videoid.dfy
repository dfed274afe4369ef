/**
 * `extractVideoId` of App.tsx: the first match of the unanchored regular expression
 *
 *   (?:https?:\/\/)?(?:www\.)?(?:youtube\.com\/(?:[^\/\n\s]+\/\S+\/|(?:v|e(?:mbed)?)\/|\S*?[?&]v=)|youtu\.be\/)([a-zA-Z0-9_-]{11})
 *
 * and its capture group. The engine is written out as a backtracking search:
 * start positions from left to right, and at each one the alternatives in the
 * order the expression lists them, greedy quantifiers longest first and the
 * lazy one shortest first. The language the expression accepts is stated
 * separately (Lead, CoreMatch), and the search is proved sound and complete
 * for it and to pick the leftmost match.
 */
module VideoId {
  import opened Options
  import opened JsString

  /** `[a-zA-Z0-9_-]` */
  predicate IsIdChar(c: char) {
    'a' <= c <= 'z' || 'A' <= c <= 'Z' || '0' <= c <= '9' || c == '_' || c == '-'
  }

  /** A YouTube video id: exactly eleven characters from `[a-zA-Z0-9_-]`. */
  predicate ValidId(id: string) {
    |id| == 11 && forall i :: 0 <= i < 11 ==> IsIdChar(id[i])
  }

  /** The two character classes the expression repeats. */
  datatype CharClass =
    | Seg       // `[^\/\n\s]`
    | NonSpace  // `\S`
  {
    predicate Has(c: char) {
      match this
      case Seg => c != '/' && c != '\n' && !IsSpace(c)
      case NonSpace => !IsSpace(c)
    }
  }

  /** Every character of `url[lo..hi]` is in `cls`. */
  predicate AllIn(url: string, lo: int, hi: int, cls: CharClass) {
    0 <= lo <= hi <= |url| && forall i :: lo <= i < hi ==> cls.Has(url[i])
  }

  /** The capture group `([a-zA-Z0-9_-]{11})` matches at `k`. */
  predicate IdAt(url: string, k: int) {
    0 <= k && k + 11 <= |url| && forall i :: k <= i < k + 11 ==> IsIdChar(url[i])
  }

  /** A `/` at `i` with an id right after it. */
  predicate SlashIdAt(url: string, i: int) {
    OccursAt(url, "/", i) && IdAt(url, i + 1)
  }

  /** `[?&]v=` at `i` with an id right after it. */
  predicate QueryIdAt(url: string, i: int) {
    0 <= i < |url| && (url[i] == '?' || url[i] == '&') && OccursAt(url, "v=", i + 1) && IdAt(url, i + 3)
  }

  // ---------------------------------------------------------------------------
  // The language: which spans the expression accepts (positions in `url`).
  // ---------------------------------------------------------------------------

  /** `[^\/\n\s]+\/\S+\/` spans `url[q..k]`. */
  predicate SegAnyPath(url: string, q: int, k: int) {
    exists j :: q < j && AllIn(url, q, j, Seg) && OccursAt(url, "/", j)
                && j + 1 < k - 1 && AllIn(url, j + 1, k - 1, NonSpace) && OccursAt(url, "/", k - 1)
  }

  /** `(?:v|e(?:mbed)?)\/` spans `url[q..k]`. */
  predicate ShortPath(url: string, q: int, k: int) {
    (k == q + 2 && (OccursAt(url, "v/", q) || OccursAt(url, "e/", q)))
    || (k == q + 6 && OccursAt(url, "embed/", q))
  }

  /** `\S*?[?&]v=` spans `url[q..k]`. */
  predicate QueryPath(url: string, q: int, k: int) {
    q + 3 <= k && OccursAt(url, "v=", k - 2) && AllIn(url, q, k - 3, NonSpace)
    && (url[k - 3] == '?' || url[k - 3] == '&')
  }

  /** One of the three path forms after `youtube.com/` spans `url[q..k]`. */
  predicate Path(url: string, q: int, k: int) {
    SegAnyPath(url, q, k) || ShortPath(url, q, k) || QueryPath(url, q, k)
  }

  /** `youtube\.com\/(?:…)` or `youtu\.be\/` spans `url[c..k]`: what precedes the id. */
  predicate Lead(url: string, c: int, k: int) {
    (OccursAt(url, "youtube.com/", c) && Path(url, c + 12, k))
    || (OccursAt(url, "youtu.be/", c) && k == c + 9)
  }

  /** The expression without its optional prefix matches from `c`, capturing the id at `k`. */
  predicate CoreMatch(url: string, c: int, k: int) {
    Lead(url, c, k) && IdAt(url, k)
  }

  /** `(?:https?:\/\/)?(?:www\.)?`: its six expansions, in the order backtracking tries them. */
  const Prefixes: seq<string> := ["https://www.", "https://", "http://www.", "http://", "www.", ""]

  /** One of `Prefixes[i..]` spans `url[p..c]`. */
  predicate PrefixSpanFrom(url: string, p: int, c: int, i: nat) {
    exists i' :: i <= i' < |Prefixes| && OccursAt(url, Prefixes[i'], p) && c == p + |Prefixes[i']|
  }

  predicate PrefixSpan(url: string, p: int, c: int) {
    PrefixSpanFrom(url, p, c, 0)
  }

  /** The whole expression matches starting at `p`. */
  ghost predicate MatchesAt(url: string, p: int) {
    exists c, k :: PrefixSpan(url, p, c) && CoreMatch(url, c, k)
  }

  // ---------------------------------------------------------------------------
  // The engine.
  // ---------------------------------------------------------------------------

  /** Length of the longest run of `cls` characters starting at `q`. */
  function Run(url: string, q: nat, cls: CharClass): (n: nat)
    requires q <= |url|
    ensures AllIn(url, q, q + n, cls)
    ensures q + n == |url| || !cls.Has(url[q + n])
    decreases |url| - q
  {
    if q == |url| || !cls.Has(url[q]) then 0 else 1 + Run(url, q + 1, cls)
  }

  /** A run is as long as any stretch of `cls` characters from the same start. */
  lemma RunCovers(url: string, q: nat, hi: int, cls: CharClass)
    requires q <= |url| && AllIn(url, q, hi, cls)
    ensures hi <= q + Run(url, q, cls)
  {
  }

  /**
   * The greedy `\S+` of `\S+\/` from `r`, whose run is `j` long, backtracking:
   * lengths `j`, `j - 1`, …, `1` are tried, each followed by `\/` and the id.
   * The result is where the id starts.
   */
  function SlashBacktrack(url: string, r: nat, j: nat): (res: Option<nat>)
    requires r + j <= |url|
    ensures res.Some? ==> r + 1 <= res.value - 1 <= r + j && SlashIdAt(url, res.value - 1)
    ensures res.Some? ==> forall i :: res.value - 1 < i <= r + j ==> !SlashIdAt(url, i)
    ensures res.None? ==> forall i :: r + 1 <= i <= r + j ==> !SlashIdAt(url, i)
  {
    if j == 0 then None
    else if SlashIdAt(url, r + j) then Some(r + j + 1)
    else SlashBacktrack(url, r, j - 1)
  }

  /**
   * Where a `[^\/\n\s]+\/\S+\/` span must lie: its first `/` is where the
   * segment run from `q` stops, and its last `/` is within the `\S` run after it.
   */
  lemma SegAnyPathShape(url: string, q: nat, k: int)
    requires q <= |url| && SegAnyPath(url, q, k)
    ensures var j := q + Run(url, q, Seg);
            q < j && OccursAt(url, "/", j) && j + 2 <= k - 1 <= j + 1 + Run(url, j + 1, NonSpace)
            && OccursAt(url, "/", k - 1)
  {
    var j' :| q < j' && AllIn(url, q, j', Seg) && OccursAt(url, "/", j')
              && j' + 1 < k - 1 && AllIn(url, j' + 1, k - 1, NonSpace) && OccursAt(url, "/", k - 1);
    RunStopsAtSlash(url, q, j');
    RunCovers(url, j' + 1, k - 1, NonSpace);
  }

  /** The segment run from `q` stops exactly at any `/` that only segment characters precede. */
  lemma RunStopsAtSlash(url: string, q: nat, j: int)
    requires q <= j && AllIn(url, q, j, Seg) && OccursAt(url, "/", j)
    ensures j == q + Run(url, q, Seg)
  {
    assert url[j] == '/';
    RunCovers(url, q, j, Seg);
  }

  /**
   * Alternative `[^\/\n\s]+\/\S+\/`: the segment run must end at a `/`; then
   * the longest way to reach a `/` followed by an id wins.
   */
  function SegAnyFrom(url: string, q: nat): (res: Option<nat>)
    requires q <= |url|
    ensures res.Some? ==> SegAnyPath(url, q, res.value) && IdAt(url, res.value)
    ensures res.Some? ==> forall k :: res.value < k ==> !(SegAnyPath(url, q, k) && IdAt(url, k))
    ensures res.None? ==> forall k :: !(SegAnyPath(url, q, k) && IdAt(url, k))
  {
    var j := q + Run(url, q, Seg);
    if j == q || !OccursAt(url, "/", j) then
      NoSegAnyPath(url, q);
      None
    else
      var m := Run(url, j + 1, NonSpace);
      var res := SlashBacktrack(url, j + 1, m);
      SegAnyBacktrack(url, q, j, m, res);
      res
  }

  /** Without a `/` where the segment run stops, no span of the first form starts at `q`. */
  lemma NoSegAnyPath(url: string, q: nat)
    requires q <= |url|
    requires var j := q + Run(url, q, Seg); j == q || !OccursAt(url, "/", j)
    ensures forall k :: !SegAnyPath(url, q, k)
  {
    forall k | SegAnyPath(url, q, k) ensures false {
      SegAnyPathShape(url, q, k);
    }
  }

  /** What the backtracking over the `\S+` run finds is exactly the last span of the first form. */
  lemma SegAnyBacktrack(url: string, q: nat, j: nat, m: nat, res: Option<nat>)
    requires q < j <= |url| && j == q + Run(url, q, Seg) && OccursAt(url, "/", j)
    requires m == Run(url, j + 1, NonSpace) && res == SlashBacktrack(url, j + 1, m)
    ensures res.Some? ==> SegAnyPath(url, q, res.value) && IdAt(url, res.value)
    ensures res.Some? ==> forall k :: res.value < k ==> !(SegAnyPath(url, q, k) && IdAt(url, k))
    ensures res.None? ==> forall k :: !(SegAnyPath(url, q, k) && IdAt(url, k))
  {
    forall k | SegAnyPath(url, q, k) && IdAt(url, k)
      ensures j + 2 <= k - 1 <= j + 1 + m && SlashIdAt(url, k - 1)
    {
      SegAnyPathShape(url, q, k);
    }
    if res.Some? {
      SegAnyPathIntro(url, q, j, res.value, m);
    }
  }

  lemma SegAnyPathIntro(url: string, q: nat, j: nat, k: int, m: nat)
    requires q < j && j + 1 + m <= |url| && OccursAt(url, "/", j) && AllIn(url, q, j, Seg)
    requires AllIn(url, j + 1, j + 1 + m, NonSpace)
    requires j + 2 <= k - 1 <= j + 1 + m && OccursAt(url, "/", k - 1)
    ensures SegAnyPath(url, q, k)
  {
    assert AllIn(url, j + 1, k - 1, NonSpace);
  }

  /**
   * The lazy `\S*?` of `\S*?[?&]v=` from `q`, whose run is `m` long: lengths
   * `j`, `j + 1`, …, `m` are tried, each followed by `[?&]v=` and the id.
   */
  function LazyQuery(url: string, q: nat, j: nat, m: nat): (res: Option<nat>)
    requires j <= m && q + m <= |url|
    ensures res.Some? ==> q + j <= res.value - 3 <= q + m && QueryIdAt(url, res.value - 3)
    ensures res.Some? ==> forall i :: q + j <= i < res.value - 3 ==> !QueryIdAt(url, i)
    ensures res.None? ==> forall i :: q + j <= i <= q + m ==> !QueryIdAt(url, i)
    decreases m - j
  {
    if QueryIdAt(url, q + j) then Some(q + j + 3)
    else if j == m then None
    else LazyQuery(url, q, j + 1, m)
  }

  /** Alternative `\S*?[?&]v=`: the shortest way to reach `?v=` or `&v=` and an id wins. */
  function QueryFrom(url: string, q: nat): (res: Option<nat>)
    requires q <= |url|
    ensures res.Some? ==> QueryPath(url, q, res.value) && IdAt(url, res.value)
    ensures res.Some? ==> forall k :: k < res.value ==> !(QueryPath(url, q, k) && IdAt(url, k))
    ensures res.None? ==> forall k :: !(QueryPath(url, q, k) && IdAt(url, k))
  {
    var m := Run(url, q, NonSpace);
    var res := LazyQuery(url, q, 0, m);
    assert forall k | QueryPath(url, q, k) && IdAt(url, k) :: QueryIdAt(url, k - 3) && k - 3 <= q + m by {
      forall k | QueryPath(url, q, k) && IdAt(url, k) ensures QueryIdAt(url, k - 3) && k - 3 <= q + m {
        RunCovers(url, q, k - 3, NonSpace);
      }
    }
    res
  }

  /** The three path forms after `youtube.com/`, in the order the alternation lists them. */
  function PathFrom(url: string, q: nat): (res: Option<nat>)
    requires q <= |url|
    ensures res.Some? ==> Path(url, q, res.value) && IdAt(url, res.value)
    ensures res.None? ==> forall k :: !(Path(url, q, k) && IdAt(url, k))
  {
    var segAny := SegAnyFrom(url, q);
    if segAny.Some? then segAny
    else if OccursAt(url, "v/", q) && IdAt(url, q + 2) then Some(q + 2)
    else if OccursAt(url, "embed/", q) && IdAt(url, q + 6) then Some(q + 6)
    else if OccursAt(url, "e/", q) && IdAt(url, q + 2) then Some(q + 2)
    else QueryFrom(url, q)
  }

  /**
   * The order of the alternation after `youtube.com/`: the first form wins
   * whenever it can be followed by an id, and then with its longest span;
   * otherwise `v/`, `embed/` or `e/` wins whenever one of them can; only then does the lazy query form decide,
   * with its shortest span.
   */
  lemma PathOrder(url: string, q: nat)
    requires q <= |url|
    ensures var res := PathFrom(url, q);
      (exists k :: SegAnyPath(url, q, k) && IdAt(url, k)) ==>
        res.Some? && SegAnyPath(url, q, res.value)
        && forall k :: res.value < k ==> !(SegAnyPath(url, q, k) && IdAt(url, k))
    ensures var res := PathFrom(url, q);
      (forall k :: !(SegAnyPath(url, q, k) && IdAt(url, k))) && (exists k :: ShortPath(url, q, k) && IdAt(url, k)) ==>
        res.Some? && ShortPath(url, q, res.value)
    ensures var res := PathFrom(url, q);
      (forall k :: !(SegAnyPath(url, q, k) && IdAt(url, k))) && (forall k :: !(ShortPath(url, q, k) && IdAt(url, k)))
      && res.Some? ==>
        QueryPath(url, q, res.value) && forall k :: k < res.value ==> !(QueryPath(url, q, k) && IdAt(url, k))
  {
  }

  /** At most one of `v/`, `embed/` and `e/` occurs at a position, so the second form has one span at most. */
  lemma ShortPathUnique(url: string, q: nat, k: int, k': int)
    requires ShortPath(url, q, k) && ShortPath(url, q, k')
    ensures k == k'
  {
    if q + 2 <= |url| {
      assert !(OccursAt(url, "v/", q) && OccursAt(url, "e/", q)) by {
        assert url[q..q + 2][0] == url[q];
      }
    }
    if q + 6 <= |url| {
      assert !(OccursAt(url, "v/", q) && OccursAt(url, "embed/", q)) by {
        assert url[q..q + 2][0] == url[q..q + 6][0];
      }
      assert !(OccursAt(url, "e/", q) && OccursAt(url, "embed/", q)) by {
        assert url[q..q + 2][1] == url[q..q + 6][1];
      }
    }
  }

  /** The expression after its optional prefix, tried at `c`; the result is where the id starts. */
  function CoreAt(url: string, c: nat): (res: Option<nat>)
    requires c <= |url|
    ensures res.Some? ==> CoreMatch(url, c, res.value)
    ensures res.None? ==> forall k :: !CoreMatch(url, c, k)
  {
    var viaCom := if OccursAt(url, "youtube.com/", c) then PathFrom(url, c + 12) else None;
    if viaCom.Some? then viaCom
    else if OccursAt(url, "youtu.be/", c) && IdAt(url, c + 9) then Some(c + 9)
    else None
  }

  /** A match: where it starts, where its core starts, where the captured id starts. */
  datatype Hit = Hit(start: nat, core: nat, id: nat)

  /** The prefix expansions `Prefixes[i..]` tried in turn at `p`, each followed by the core. */
  function MatchFrom(url: string, p: nat, i: nat): (res: Option<Hit>)
    requires p <= |url| && i <= |Prefixes|
    ensures res.Some? ==> res.value.start == p && PrefixSpanFrom(url, p, res.value.core, i)
                          && CoreMatch(url, res.value.core, res.value.id)
    ensures res.None? ==> forall c, k :: PrefixSpanFrom(url, p, c, i) ==> !CoreMatch(url, c, k)
    decreases |Prefixes| - i
  {
    if i == |Prefixes| then None
    else
      var c := p + |Prefixes[i]|;
      var core := if OccursAt(url, Prefixes[i], p) then CoreAt(url, c) else None;
      if core.Some? then Some(Hit(p, c, core.value))
      else
        var rest := MatchFrom(url, p, i + 1);
        assert forall c' | PrefixSpanFrom(url, p, c', i) && !PrefixSpanFrom(url, p, c', i + 1)
          :: c' == c && OccursAt(url, Prefixes[i], p);
        rest
  }

  /** Start positions `p`, `p + 1`, …, `|url|` tried in turn: the leftmost match wins. */
  function SearchFrom(url: string, p: nat): (res: Option<Hit>)
    requires p <= |url|
    ensures res.Some? ==> p <= res.value.start && PrefixSpan(url, res.value.start, res.value.core)
                          && CoreMatch(url, res.value.core, res.value.id)
    ensures res.Some? ==> forall s :: p <= s < res.value.start ==> !MatchesAt(url, s)
    ensures res.None? ==> forall c, k :: p <= c ==> !CoreMatch(url, c, k)
    decreases |url| - p
  {
    var here := MatchFrom(url, p, 0);
    assert PrefixSpan(url, p, p) by {
      assert OccursAt(url, Prefixes[5], p);
    }
    if here.Some? then here
    else if p == |url| then None
    else SearchFrom(url, p + 1)
  }

  /** `url.match(regex)`, then `match ? match[1] : null`. */
  function ExtractVideoId(url: string): (r: Option<string>)
    ensures r.Some? ==> ValidId(r.value)
    ensures r.Some? ==> exists c, k :: CoreMatch(url, c, k) && r.value == url[k..k + 11]
    ensures r.None? <==> forall c, k :: !CoreMatch(url, c, k)
  {
    match SearchFrom(url, 0)
    case Some(h) => Some(url[h.id..h.id + 11])
    case None => None
  }
}

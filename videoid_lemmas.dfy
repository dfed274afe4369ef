/**
 * What `extractVideoId` promises about the URL shapes the application meets:
 * watch links, short links, the embed URL the video player builds, text
 * without any YouTube host, and that the id comes from the leftmost match.
 */
module VideoIdLemmas {
  import opened Options
  import opened JsString
  import opened VideoId

  /** No prefix expansion contains a `y`, so no core match can start inside one. */
  lemma PrefixHasNoY(i: nat, n: nat)
    requires i < |Prefixes| && n < |Prefixes[i]|
    ensures Prefixes[i][n] != 'y'
  {
  }

  /**
   * The search picks the leftmost place where `youtube.com/` or `youtu.be/`
   * starts a match: the optional prefix never hides an earlier one.
   */
  lemma {:induction false} LeftmostCore(url: string, c: int, k: int)
    requires SearchFrom(url, 0).Some?
    requires c < SearchFrom(url, 0).value.core
    ensures !CoreMatch(url, c, k)
  {
    var h := SearchFrom(url, 0).value;
    if CoreMatch(url, c, k) {
      CoreStartsWithYoutu(url, c, k);
      assert url[c] == "youtu"[0];
      if c < h.start {
        assert OccursAt(url, Prefixes[5], c);
        assert PrefixSpan(url, c, c);
        assert MatchesAt(url, c);
        assert false;
      } else {
        var i :| 0 <= i < |Prefixes| && OccursAt(url, Prefixes[i], h.start) && h.core == h.start + |Prefixes[i]|;
        assert url[c] == Prefixes[i][c - h.start];
        PrefixHasNoY(i, c - h.start);
      }
    }
  }

  /** Every core match begins with `youtu`. */
  lemma CoreStartsWithYoutu(url: string, c: int, k: int)
    requires CoreMatch(url, c, k)
    ensures OccursAt(url, "youtu", c)
  {
    if OccursAt(url, "youtube.com/", c) {
      assert url[c..c + 5] == url[c..c + 12][..5];
    } else {
      assert url[c..c + 5] == url[c..c + 9][..5];
    }
  }

  /** A prefix expansion that does not occur at `p` is skipped by the engine. */
  lemma MatchFromSkipsOne(url: string, p: nat, j: nat)
    requires p <= |url| && j < |Prefixes| && !OccursAt(url, Prefixes[j], p)
    ensures MatchFrom(url, p, j) == MatchFrom(url, p, j + 1)
  {
  }

  /** Prefix expansions `j` to `i - 1`, none of which occurs at `p`, are all skipped. */
  lemma {:induction false} MatchFromSkips(url: string, p: nat, j: nat, i: nat)
    requires p <= |url| && j < i <= |Prefixes|
    requires forall i' :: j <= i' < i ==> !OccursAt(url, Prefixes[i'], p)
    ensures MatchFrom(url, p, j) == MatchFrom(url, p, i)
    decreases i - j
  {
    if j + 1 == i {
      MatchFromSkipsOne(url, p, j);
    } else {
      MatchFromSkipsOne(url, p, j);
      MatchFromSkips(url, p, j + 1, i);
    }
  }

  /**
   * If the URL opens with prefix expansion `i`, none of the expansions tried
   * before it, and the core then matches, the first match starts at 0.
   */
  lemma MatchAtStart(url: string, i: nat, k: nat)
    requires i < |Prefixes| && OccursAt(url, Prefixes[i], 0)
    requires forall i' :: 0 <= i' < i ==> !OccursAt(url, Prefixes[i'], 0)
    requires CoreAt(url, |Prefixes[i]|) == Some(k)
    ensures ExtractVideoId(url) == Some(url[k..k + 11])
  {
    var hit := Hit(0, |Prefixes[i]|, k);
    FirstOptionAtStart(url, i, k);
    SearchAtStart(url, hit);
    ExtractFromSearch(url, hit);
  }

  lemma FirstOptionAtStart(url: string, i: nat, k: nat)
    requires i < |Prefixes| && OccursAt(url, Prefixes[i], 0)
    requires forall i' :: 0 <= i' < i ==> !OccursAt(url, Prefixes[i'], 0)
    requires CoreAt(url, |Prefixes[i]|) == Some(k)
    ensures MatchFrom(url, 0, 0) == Some(Hit(0, |Prefixes[i]|, k)) && k + 11 <= |url|
  {
    if 0 < i {
      MatchFromSkips(url, 0, 0, i);
    }
  }

  lemma SearchAtStart(url: string, hit: Hit)
    requires MatchFrom(url, 0, 0) == Some(hit)
    ensures SearchFrom(url, 0) == Some(hit)
  {
  }

  lemma ExtractFromSearch(url: string, hit: Hit)
    requires SearchFrom(url, 0) == Some(hit) && hit.id + 11 <= |url|
    ensures ExtractVideoId(url) == Some(url[hit.id..hit.id + 11])
  {
  }

  /** A URL made of prefix expansion `i` and a host starting with `y` opens with expansion `i` only. */
  lemma SchemeIsFirst(url: string, i: nat, host: string)
    requires i < |Prefixes| && url == Prefixes[i] + host && |host| >= 1 && host[0] == 'y'
    ensures OccursAt(url, Prefixes[i], 0)
    ensures forall i' :: 0 <= i' < i ==> !OccursAt(url, Prefixes[i'], 0)
  {
    assert url[..|Prefixes[i]|] == Prefixes[i];
    forall i' | 0 <= i' < i ensures !OccursAt(url, Prefixes[i'], 0) {
      // The first index at which expansion i' disagrees with expansion i followed by `y`.
      var d := if i >= 4 then 0 else if i' == 0 && i == 1 then 8 else if i' == 2 && i == 3 then 7 else 4;
      assert d < |Prefixes[i']| && d <= |Prefixes[i]|;
      assert url[d] == if d < |Prefixes[i]| then Prefixes[i][d] else host[0];
      assert url[d] != Prefixes[i'][d];
    }
  }

  /** No `/` from `q` on. */
  predicate SlashFreeFrom(url: string, q: nat) {
    forall i :: q <= i < |url| ==> url[i] != '/'
  }

  lemma NoSlashNoSegAny(url: string, q: nat)
    requires q <= |url| && SlashFreeFrom(url, q)
    ensures SegAnyFrom(url, q) == None
  {
    var j := q + Run(url, q, Seg);
    assert j < |url| ==> url[j] != "/"[0];
  }

  lemma IdHasNoSlash(id: string)
    requires ValidId(id)
    ensures '/' !in id
  {
    assert forall i :: 0 <= i < |id| ==> IsIdChar(id[i]);
  }

  /** Where each piece of a string of four pieces sits. */
  lemma Pieces(a: string, b: string, d: string, e: string)
    ensures var s := a + b + d + e;
      s[..|a|] == a && s[|a|..|a| + |b|] == b && s[|a| + |b|..|a| + |b| + |d|] == d
      && s[|a| + |b|..] == d + e && s[|a| + |b| + |d|..] == e
  {
  }

  lemma SlashFreeSuffix(url: string, q: nat)
    requires q <= |url| && '/' !in url[q..]
    ensures SlashFreeFrom(url, q)
  {
    forall n | q <= n < |url| ensures url[n] != '/' {
      assert url[n] == url[q..][n - q];
    }
  }

  lemma IdAtPiece(url: string, k: nat, id: string)
    requires ValidId(id) && k + 11 <= |url| && url[k..k + 11] == id
    ensures IdAt(url, k)
  {
    forall n | k <= n < k + 11 ensures IsIdChar(url[n]) {
      assert url[n] == id[n - k];
    }
  }

  /** After `watch?v=` and an id, the lazy alternative stops at the `?`. */
  lemma WatchQuery(url: string, q: nat)
    requires q <= |url| && OccursAt(url, "watch?v=", q) && IdAt(url, q + 8)
    ensures QueryFrom(url, q) == Some(q + 8)
  {
    assert url[q..q + 8][5] == '?' && url[q..q + 8][6..8] == "v=";
    assert url[q + 6..q + 8] == url[q..q + 8][6..8];
    assert QueryIdAt(url, q + 5);
    assert AllIn(url, q, q + 5, NonSpace) by {
      forall n | q <= n < q + 5 ensures NonSpace.Has(url[n]) {
        assert url[n] == "watch"[n - q];
      }
    }
    assert QueryPath(url, q, q + 8);
    forall n | q <= n < q + 5 ensures !QueryIdAt(url, n) {
      assert url[n] == url[q..q + 8][n - q];
    }
  }

  /** With no `/` after `r`, the `\S+\/` backtracking from `r` finds nothing. */
  lemma SlashFreeNoBacktrack(url: string, r: nat, j: nat)
    requires r + j <= |url| && SlashFreeFrom(url, r)
    ensures SlashBacktrack(url, r, j) == None
  {
    forall i | r + 1 <= i <= r + j ensures !SlashIdAt(url, i) {
      assert i < |url| ==> url[i..i + 1][0] == url[i];
    }
  }

  /** The facts about a watch link that decide the match. */
  lemma WatchMatch(url: string, i: nat)
    requires i < |Prefixes| && OccursAt(url, Prefixes[i], 0)
    requires forall i' :: 0 <= i' < i ==> !OccursAt(url, Prefixes[i'], 0)
    requires var c := |Prefixes[i]|;
      OccursAt(url, "youtube.com/", c) && OccursAt(url, "watch?v=", c + 12) && IdAt(url, c + 20)
      && SlashFreeFrom(url, c + 12)
    ensures var c := |Prefixes[i]|; ExtractVideoId(url) == Some(url[c + 20..c + 31])
  {
    var c := |Prefixes[i]|;
    var q := c + 12;
    NoSlashNoSegAny(url, q);
    WatchQuery(url, q);
    assert url[q] == url[q..q + 8][0];
    PathByQuery(url, q);
    CoreViaCom(url, c, q + 8);
    MatchAtStart(url, i, q + 8);
  }

  /** When the first alternative fails and no short form fits, the lazy alternative decides. */
  lemma PathByQuery(url: string, q: nat)
    requires q < |url| && SegAnyFrom(url, q) == None && url[q] != 'v' && url[q] != 'e'
    ensures PathFrom(url, q) == QueryFrom(url, q)
  {
    assert !OccursAt(url, "v/", q) && !OccursAt(url, "e/", q) && !OccursAt(url, "embed/", q) by {
      assert q + 2 <= |url| ==> url[q..q + 2][0] == url[q];
      assert q + 6 <= |url| ==> url[q..q + 6][0] == url[q];
    }
  }

  /** A path form after `youtube.com/` makes the core match there. */
  lemma CoreViaCom(url: string, c: nat, k: nat)
    requires c + 12 <= |url| && OccursAt(url, "youtube.com/", c) && PathFrom(url, c + 12) == Some(k)
    ensures CoreAt(url, c) == Some(k)
  {
  }

  /** Where the pieces of a watch link sit. */
  lemma WatchPieces(scheme: string, id: string, rest: string)
    requires ValidId(id) && '/' !in rest
    ensures var url, c := scheme + "youtube.com/watch?v=" + id + rest, |scheme|;
      url[..c] == scheme && url[c..] == "youtube.com/watch?v=" + id + rest
      && OccursAt(url, "youtube.com/", c) && OccursAt(url, "watch?v=", c + 12) && IdAt(url, c + 20)
      && url[c + 20..c + 31] == id && SlashFreeFrom(url, c + 12)
  {
    var c := |scheme|;
    var url := scheme + "youtube.com/watch?v=" + id + rest;
    Pieces(scheme, "youtube.com/watch?v=", id, rest);
    assert url[c..c + 12] == url[c..c + 20][..12];
    assert url[c + 12..c + 20] == url[c..c + 20][12..];
    IdAtPiece(url, c + 20, id);
    IdHasNoSlash(id);
    assert url[c + 12..] == "watch?v=" + (id + rest) by {
      assert url[c + 12..] == url[c..c + 20][12..] + url[c + 20..];
    }
    assert '/' !in "watch?v=";
    assert '/' !in id + rest;
    SlashFreeSuffix(url, c + 12);
  }

  /** `<scheme>youtube.com/watch?v=<id><rest>`: the id after `?v=` is returned. */
  lemma WatchUrl(scheme: string, id: string, rest: string)
    requires scheme in Prefixes && ValidId(id) && '/' !in rest
    ensures ExtractVideoId(scheme + "youtube.com/watch?v=" + id + rest) == Some(id)
  {
    var i :| 0 <= i < |Prefixes| && Prefixes[i] == scheme;
    var url := scheme + "youtube.com/watch?v=" + id + rest;
    WatchPieces(scheme, id, rest);
    SchemeIsFirst(url, i, url[|scheme|..]);
    WatchMatch(url, i);
  }

  /** The facts about a short link that decide the match. */
  lemma ShortLinkMatch(url: string, i: nat)
    requires i < |Prefixes| && OccursAt(url, Prefixes[i], 0)
    requires forall i' :: 0 <= i' < i ==> !OccursAt(url, Prefixes[i'], 0)
    requires var c := |Prefixes[i]|; OccursAt(url, "youtu.be/", c) && IdAt(url, c + 9)
    ensures var c := |Prefixes[i]|; ExtractVideoId(url) == Some(url[c + 9..c + 20])
  {
    var c := |Prefixes[i]|;
    assert url[c..c + 9][5] == '.';
    assert !OccursAt(url, "youtube.com/", c) by {
      if c + 12 <= |url| {
        assert url[c..c + 12][5] == url[c + 5];
      }
    }
    assert CoreAt(url, c) == Some(c + 9);
    MatchAtStart(url, i, c + 9);
  }

  /** `<scheme>youtu.be/<id><rest>`: the id after the short host is returned, whatever follows it. */
  lemma ShortLink(scheme: string, id: string, rest: string)
    requires scheme in Prefixes && ValidId(id)
    ensures ExtractVideoId(scheme + "youtu.be/" + id + rest) == Some(id)
  {
    var i :| 0 <= i < |Prefixes| && Prefixes[i] == scheme;
    var url := scheme + "youtu.be/" + id + rest;
    Pieces(scheme, "youtu.be/", id, rest);
    SchemeIsFirst(url, i, url[|scheme|..]);
    IdAtPiece(url, |scheme| + 9, id);
    ShortLinkMatch(url, i);
  }

  /** The second path form after `youtube.com/`: `v/`, `embed/` or `e/`. */
  predicate ShortForm(form: string) {
    form == "v/" || form == "embed/" || form == "e/"
  }

  /** After a short form, the first alternative fails when nothing later holds a `/`. */
  lemma ShortFormSegAny(url: string, q: nat, form: string)
    requires ShortForm(form) && OccursAt(url, form, q) && SlashFreeFrom(url, q + |form|)
    ensures SegAnyFrom(url, q) == None
  {
    // The segment run is the form's letters, stopped by its `/`; the `\S+\/` after it finds no `/`.
    var f := |form| - 1;
    assert AllIn(url, q, q + f, Seg) by {
      forall n | q <= n < q + f ensures Seg.Has(url[n]) {
        assert url[n] == url[q..q + |form|][n - q];
      }
    }
    assert url[q + f] == url[q..q + |form|][f];
    RunStopsAtSlash(url, q, q + f);
    var m := Run(url, q + |form|, NonSpace);
    SlashFreeNoBacktrack(url, q + |form|, m);
  }

  /** When the first alternative fails, a short form and an id decide. */
  lemma PathByShortForm(url: string, q: nat, form: string)
    requires ShortForm(form) && q <= |url| && SegAnyFrom(url, q) == None
    requires OccursAt(url, form, q) && IdAt(url, q + |form|)
    ensures PathFrom(url, q) == Some(q + |form|)
  {
    assert ShortPath(url, q, q + |form|);
    PathOrder(url, q);
    ShortPathUnique(url, q, PathFrom(url, q).value, q + |form|);
  }

  /** The facts about a short-form link that decide the match. */
  lemma ShortFormMatch(url: string, i: nat, form: string)
    requires ShortForm(form)
    requires i < |Prefixes| && OccursAt(url, Prefixes[i], 0)
    requires forall i' :: 0 <= i' < i ==> !OccursAt(url, Prefixes[i'], 0)
    requires var c := |Prefixes[i]|;
      OccursAt(url, "youtube.com/", c) && OccursAt(url, form, c + 12) && IdAt(url, c + 12 + |form|)
      && SlashFreeFrom(url, c + 12 + |form|)
    ensures var k := |Prefixes[i]| + 12 + |form|; ExtractVideoId(url) == Some(url[k..k + 11])
  {
    var c := |Prefixes[i]|;
    var q := c + 12;
    ShortFormSegAny(url, q, form);
    PathByShortForm(url, q, form);
    CoreViaCom(url, c, q + |form|);
    MatchAtStart(url, i, q + |form|);
  }

  /** Where the pieces of a short-form link sit. */
  lemma ShortFormPieces(scheme: string, form: string, id: string, rest: string)
    requires ShortForm(form) && ValidId(id) && '/' !in rest
    ensures var url, c := scheme + "youtube.com/" + form + id + rest, |scheme|;
      var k := c + 12 + |form|;
      url[..c] == scheme && |url| > c && url[c] == 'y'
      && OccursAt(url, "youtube.com/", c) && OccursAt(url, form, c + 12) && IdAt(url, k)
      && url[k..k + 11] == id && SlashFreeFrom(url, k)
  {
    var c := |scheme|;
    var head := scheme + "youtube.com/";
    var url := head + form + id + rest;
    var k := c + 12 + |form|;
    Pieces(head, form, id, rest);
    assert url[c..c + 12] == head[c..];
    assert url[..c] == head[..c];
    IdAtPiece(url, k, id);
    IdHasNoSlash(id);
    SlashFreeSuffix(url, k);
  }

  /** `<scheme>youtube.com/<form><id><rest>` for a short form, when nothing after the id has a `/`. */
  lemma ShortFormUrl(url: string, scheme: string, form: string, id: string, rest: string)
    requires scheme in Prefixes && ShortForm(form) && ValidId(id) && '/' !in rest
    requires url == scheme + "youtube.com/" + form + id + rest
    ensures ExtractVideoId(url) == Some(id)
  {
    var i :| 0 <= i < |Prefixes| && Prefixes[i] == scheme;
    ShortFormPieces(scheme, form, id, rest);
    assert url == Prefixes[i] + url[|scheme|..];
    SchemeIsFirst(url, i, url[|scheme|..]);
    ShortFormMatch(url, i, form);
  }

  /** The host and a short form written as one piece. */
  lemma FormJoin(scheme: string, path: string, form: string, id: string, rest: string)
    requires path == "youtube.com/" + form
    ensures scheme + path + id + rest == scheme + "youtube.com/" + form + id + rest
  {
  }

  /** `<scheme>youtube.com/embed/<id><rest>`, when nothing after the id has a `/`. */
  lemma EmbedUrl(scheme: string, id: string, rest: string)
    requires scheme in Prefixes && ValidId(id) && '/' !in rest
    ensures ExtractVideoId(scheme + "youtube.com/embed/" + id + rest) == Some(id)
  {
    FormJoin(scheme, "youtube.com/embed/", "embed/", id, rest);
    ShortFormUrl(scheme + "youtube.com/embed/" + id + rest, scheme, "embed/", id, rest);
  }

  /** `<scheme>youtube.com/v/<id><rest>`, when nothing after the id has a `/`. */
  lemma VUrl(scheme: string, id: string, rest: string)
    requires scheme in Prefixes && ValidId(id) && '/' !in rest
    ensures ExtractVideoId(scheme + "youtube.com/v/" + id + rest) == Some(id)
  {
    FormJoin(scheme, "youtube.com/v/", "v/", id, rest);
    ShortFormUrl(scheme + "youtube.com/v/" + id + rest, scheme, "v/", id, rest);
  }

  /** `<scheme>youtube.com/e/<id><rest>`, when nothing after the id has a `/`. */
  lemma EUrl(scheme: string, id: string, rest: string)
    requires scheme in Prefixes && ValidId(id) && '/' !in rest
    ensures ExtractVideoId(scheme + "youtube.com/e/" + id + rest) == Some(id)
  {
    FormJoin(scheme, "youtube.com/e/", "e/", id, rest);
    ShortFormUrl(scheme + "youtube.com/e/" + id + rest, scheme, "e/", id, rest);
  }

  /** The embed address the video player builds for an id. */
  function PlayerEmbedUrl(id: string): string {
    "https://www.youtube.com/embed/" + id + "?autoplay=1&modestbranding=1&rel=0"
  }

  /** Round trip: the player's embed address of a valid id yields that id back. */
  lemma PlayerEmbedRoundTrip(id: string)
    requires ValidId(id)
    ensures ExtractVideoId(PlayerEmbedUrl(id)) == Some(id)
  {
    var tail := "?autoplay=1&modestbranding=1&rel=0";
    assert '/' !in tail;
    EmbedUrl(Prefixes[0], id, tail);
    EmbedBase();
  }

  lemma EmbedBase()
    ensures Prefixes[0] + "youtube.com/embed/" == "https://www.youtube.com/embed/"
  {
    assert Prefixes[0] == "https://www.";
    SameChars("https://www." + "youtube.com/embed/", "https://www.youtube.com/embed/");
  }

  /** Text in which `youtu` never occurs has no video id. */
  lemma NoHostNoId(url: string)
    requires !Includes(url, "youtu")
    ensures ExtractVideoId(url) == None
  {
    forall c, k | CoreMatch(url, c, k) ensures false {
      CoreStartsWithYoutu(url, c, k);
    }
  }

  /** The example id used below. */
  const ExampleId := "dQw4w9WgXcQ"

  lemma ExampleIdIsValid()
    ensures ValidId(ExampleId)
  {
    assert forall i :: 0 <= i < 11 ==> IsIdChar(ExampleId[i]);
  }

  lemma ExampleWatch()
    ensures ExtractVideoId("https://www.youtube.com/watch?v=dQw4w9WgXcQ") == Some(ExampleId)
  {
    ExampleIdIsValid();
    WatchUrl(Prefixes[0], ExampleId, "");
    WatchText();
  }

  lemma ExampleBareWatch()
    ensures ExtractVideoId("youtube.com/watch?v=dQw4w9WgXcQ") == Some(ExampleId)
  {
    ExampleIdIsValid();
    WatchUrl(Prefixes[5], ExampleId, "");
    BareWatchText();
  }

  lemma ExampleShort()
    ensures ExtractVideoId("https://youtu.be/dQw4w9WgXcQ") == Some(ExampleId)
  {
    ExampleIdIsValid();
    ShortLink(Prefixes[1], ExampleId, "");
    ShortText();
  }

  lemma ExampleWwwShort()
    ensures ExtractVideoId("www.youtu.be/dQw4w9WgXcQ") == Some(ExampleId)
  {
    ExampleIdIsValid();
    ShortLink(Prefixes[4], ExampleId, "");
    WwwShortText();
  }

  /** The example addresses, spelled as the URL-shape lemmas build them. */
  lemma WatchText()
    ensures Prefixes[0] + "youtube.com/watch?v=" + ExampleId + "" == "https://www.youtube.com/watch?v=dQw4w9WgXcQ"
  {
    assert Prefixes[0] == "https://www.";
    SameChars("https://www." + "youtube.com/watch?v=" + ExampleId + "", "https://www.youtube.com/watch?v=dQw4w9WgXcQ");
  }

  lemma BareWatchText()
    ensures Prefixes[5] + "youtube.com/watch?v=" + ExampleId + "" == "youtube.com/watch?v=dQw4w9WgXcQ"
  {
    assert Prefixes[5] == "";
    SameChars("" + "youtube.com/watch?v=" + ExampleId + "", "youtube.com/watch?v=dQw4w9WgXcQ");
  }

  lemma ShortText()
    ensures Prefixes[1] + "youtu.be/" + ExampleId + "" == "https://youtu.be/dQw4w9WgXcQ"
  {
    assert Prefixes[1] == "https://";
    SameChars("https://" + "youtu.be/" + ExampleId + "", "https://youtu.be/dQw4w9WgXcQ");
  }

  lemma WwwShortText()
    ensures Prefixes[4] + "youtu.be/" + ExampleId + "" == "www.youtu.be/dQw4w9WgXcQ"
  {
    assert Prefixes[4] == "www.";
    SameChars("www." + "youtu.be/" + ExampleId + "", "www.youtu.be/dQw4w9WgXcQ");
  }

  /** Text without a `y` holds no video id. */
  lemma ExampleNotAUrl()
    ensures ExtractVideoId("not a url") == None
  {
    assert 'y' !in "not a url";
    AbsentChar("not a url", "youtu", 0);
    NoHostNoId("not a url");
  }
}

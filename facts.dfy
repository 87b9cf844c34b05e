/** What a run of the download thread guarantees: per entry, over the loop,
    and over a whole run, including running it twice. */
module DownloaderFacts {
  import opened Catalog
  import opened Downloader

  // ----- One entry -----------------------------------------------------------

  /** An entry without a regular style is skipped with one signal, without a
      request (the result does not depend on the network) and without a write. */
  lemma SkipWithoutRegularStyle(s: State, i: nat, font: Font, fetch: string -> FetchResult,
                                other: string -> FetchResult)
    requires RegularUrl(font) == ""
    ensures Step(s, i, font, fetch) == Step(s, i, font, other)
    ensures Step(s, i, font, fetch)
         == Running(State(s.dir, s.signals + [ProgressUpdate(i + 1, NoRegularStyle(font.family))], s.newFonts))
  {
  }

  /** An entry whose file is already in the folder, written before the run or
      earlier in it, is skipped with one signal, without a request and without
      touching the file. */
  lemma SkipExistingFile(s: State, i: nat, font: Font, fetch: string -> FetchResult,
                         other: string -> FetchResult)
    requires RegularUrl(font) != "" && FileName(font.family) in s.dir
    ensures Step(s, i, font, fetch) == Step(s, i, font, other)
    ensures Step(s, i, font, fetch)
         == Running(State(s.dir, s.signals + [ProgressUpdate(i + 1, AlreadyDownloaded(font.family))], s.newFonts))
  {
  }

  /** A fetched entry: status 200 writes exactly the body and counts it; any
      other status reports a failure, writes nothing and the loop goes on; a
      transport failure ends the loop after the "Downloading" signal. */
  lemma FetchOutcome(s: State, i: nat, font: Font, fetch: string -> FetchResult)
    requires RegularUrl(font) != "" && FileName(font.family) !in s.dir
    ensures var r, name, started := Step(s, i, font, fetch), FileName(font.family),
                                    s.signals + [ProgressUpdate(i + 1, Downloading(font.family))];
            match fetch(RegularUrl(font))
            case Response(status, content) =>
              if status == 200 then
                r == Running(State(s.dir[name := content],
                                   started + [ProgressUpdate(i + 1, Downloaded(font.family))], s.newFonts + 1))
              else
                r == Running(State(s.dir, started + [ProgressUpdate(i + 1, DownloadFailed(font.family))], s.newFonts))
            case ConnectionFailed(reason) =>
              r == Raised(State(s.dir, started, s.newFonts), reason)
  {
  }

  // ----- The loop ------------------------------------------------------------

  /** The folder only grows: files present when the loop reaches position i
      keep their bytes, the counter grows by the number of new files (at most
      one per remaining entry), and every new file holds the body of a 200
      reply to the regular URL of an entry of that family. */
  lemma {:induction false} WalkGrowth(fonts: seq<Font>, i: nat, s: State, fetch: string -> FetchResult)
    requires i <= |fonts|
    ensures var t := Walk(fonts, i, s, fetch).st;
            && s.dir.Keys <= t.dir.Keys
            && (forall k :: k in s.dir ==> t.dir[k] == s.dir[k])
            && s.newFonts <= t.newFonts <= s.newFonts + (|fonts| - i)
            && |t.dir| == |s.dir| + (t.newFonts - s.newFonts)
            && (forall k :: k in t.dir && k !in s.dir ==>
                  exists j :: i <= j < |fonts| && FileName(fonts[j].family) == k
                              && fetch(RegularUrl(fonts[j])) == Response(200, t.dir[k]))
    decreases |fonts| - i
  {
    if i < |fonts| {
      var font := fonts[i];
      var name := FileName(font.family);
      match Step(s, i, font, fetch)
      case Raised(s', _) =>
      case Running(s') =>
        WalkGrowth(fonts, i + 1, s', fetch);
        var t := Walk(fonts, i + 1, s', fetch).st;
        if s'.dir != s.dir {
          assert s'.dir == s.dir[name := t.dir[name]] && name !in s.dir;
          assert fetch(RegularUrl(fonts[i])) == Response(200, t.dir[name]);
        }
        forall k | k in t.dir && k !in s.dir
          ensures exists j :: i <= j < |fonts| && FileName(fonts[j].family) == k
                              && fetch(RegularUrl(fonts[j])) == Response(200, t.dir[k])
        {
          if k !in s'.dir {
            var j :| i + 1 <= j < |fonts| && FileName(fonts[j].family) == k
                     && fetch(RegularUrl(fonts[j])) == Response(200, t.dir[k]);
          } else {
            assert k == name;
          }
        }
    }
  }

  /** A progress signal for the k-th kept entry (k counted from 1, above lo). */
  predicate Names(sig: Signal, fonts: seq<Font>, lo: nat)
  {
    sig.ProgressUpdate? && lo < sig.index <= |fonts| && sig.note.family == fonts[sig.index - 1].family
  }

  /** Some signal from position lo on is a progress signal for the k-th entry. */
  predicate Reports(signals: seq<Signal>, lo: nat, k: nat)
  {
    exists a :: lo <= a < |signals| && signals[a].ProgressUpdate? && signals[a].index == k
  }

  /** The loop only appends progress signals; each names the entry whose
      position it carries, and positions never decrease. */
  lemma {:induction false} WalkSignals(fonts: seq<Font>, i: nat, s: State, fetch: string -> FetchResult)
    requires i <= |fonts|
    ensures var t := Walk(fonts, i, s, fetch).st;
            && |s.signals| <= |t.signals| && t.signals[..|s.signals|] == s.signals
            && (forall a :: |s.signals| <= a < |t.signals| ==> Names(t.signals[a], fonts, i))
            && (forall a, b :: |s.signals| <= a < b < |t.signals| ==> t.signals[a].index <= t.signals[b].index)
            && (Walk(fonts, i, s, fetch).Running? ==>
                  forall k :: i < k <= |fonts| ==> Reports(t.signals, |s.signals|, k))
    decreases |fonts| - i
  {
    if i < |fonts| {
      var font := fonts[i];
      var r := Step(s, i, font, fetch);
      var s' := r.st;
      if r.Running? {
        WalkSignals(fonts, i + 1, s', fetch);
        var t := Walk(fonts, i + 1, s', fetch).st;
        assert t.signals[..|s.signals|] == t.signals[..|s'.signals|][..|s.signals|];
        forall a | |s.signals| <= a < |s'.signals|
          ensures t.signals[a] == s'.signals[a]
        {
          assert t.signals[..|s'.signals|][a] == t.signals[a];
        }
        if Walk(fonts, i + 1, s', fetch).Running? {
          forall k | i < k <= |fonts| ensures Reports(t.signals, |s.signals|, k) {
            if k == i + 1 {
              assert t.signals[|s.signals|].index == k;
            } else {
              assert Reports(t.signals, |s'.signals|, k);
            }
          }
        }
      }
    }
  }

  /** A progress signal reporting a successful download. */
  predicate IsDownload(sig: Signal)
  {
    sig.ProgressUpdate? && sig.note.Downloaded?
  }

  /** A second loop over the folder the first loop left behind, with the same
      network, writes nothing, counts nothing and reports no download; if the
      first loop finished, so does the second. */
  lemma {:induction false} WalkIdempotent(fonts: seq<Font>, i: nat, first: State, second: State,
                                          fetch: string -> FetchResult)
    requires i <= |fonts|
    requires second.dir == Walk(fonts, i, first, fetch).st.dir
    ensures var t := Walk(fonts, i, second, fetch).st;
            && t.dir == second.dir
            && t.newFonts == second.newFonts
            && (forall a :: |second.signals| <= a < |t.signals| ==> !IsDownload(t.signals[a]))
            && (Walk(fonts, i, first, fetch).Running? ==> Walk(fonts, i, second, fetch).Running?)
    decreases |fonts| - i
  {
    if i < |fonts| {
      var font := fonts[i];
      var url, name := RegularUrl(font), FileName(font.family);
      WalkGrowth(fonts, i, first, fetch);
      if url == "" || name in second.dir || !fetch(url).ConnectionFailed? {
        // the first loop went on past this entry
        var first' := Step(first, i, font, fetch).st;
        if name in second.dir && url != "" && name !in first.dir && fetch(url).ConnectionFailed? {
          assert false;
        }
        assert Step(first, i, font, fetch).Running?;
        assert Walk(fonts, i, first, fetch) == Walk(fonts, i + 1, first', fetch);
        if url != "" && name !in second.dir && fetch(url).status == 200 {
          WalkGrowth(fonts, i + 1, first', fetch);
          assert false;
        }
        var r := Step(second, i, font, fetch);
        assert r.Running? && r.st.dir == second.dir && r.st.newFonts == second.newFonts;
        var second' := r.st;
        assert forall a :: |second.signals| <= a < |second'.signals| ==> !IsDownload(second'.signals[a]);
        WalkIdempotent(fonts, i + 1, first', second', fetch);
        WalkSignals(fonts, i + 1, second', fetch);
        var t := Walk(fonts, i + 1, second', fetch).st;
        forall a | |second.signals| <= a < |second'.signals|
          ensures t.signals[a] == second'.signals[a]
        {
          assert t.signals[..|second'.signals|][a] == t.signals[a];
        }
      }
    }
  }

  // ----- A whole run ---------------------------------------------------------

  /** The entries a run walks through: the Hebrew families of a decoded 200
      reply, and none otherwise. */
  function Kept(reply: CatalogReply): (fonts: seq<Font>)
    ensures forall f :: f in fonts ==> Subset in f.subsets
  {
    if reply.CatalogReply? && reply.status == 200 && !reply.listing.Unparsable?
    then HebrewFonts(Fonts(reply.listing)) else []
  }

  /** A catalog request that fails or answers with a status other than 200
      ends the run with exactly one error signal and no write. */
  lemma RunCatalogFailure(apiKey: string, dir: Directory, net: Network)
    requires var reply := net.listing(CatalogUrl(apiKey));
             reply.CatalogUnreachable? || reply.status != 200
    ensures var reply, e := net.listing(CatalogUrl(apiKey)), RunEffect(apiKey, dir, net);
            && e.dir == dir
            && e.signals == [ErrorOccurred(if reply.CatalogReply? then CatalogError(reply.text) else reply.reason)]
  {
  }

  /** A listing without `items` is an empty catalog: the run completes with 0. */
  lemma RunWithoutItems(apiKey: string, dir: Directory, net: Network)
    requires var reply := net.listing(CatalogUrl(apiKey));
             reply.CatalogReply? && reply.status == 200 && reply.listing.NoItems?
    ensures RunEffect(apiKey, dir, net) == Effect(dir, [DownloadComplete(0)])
  {
  }

  /** Every run ends with exactly one terminal signal, completion or error, and
      nothing after it; all signals before it are progress signals naming the
      kept entry whose 1-based position they carry, in non-decreasing order. */
  lemma RunSignals(apiKey: string, dir: Directory, net: Network)
    ensures var e, fonts := RunEffect(apiKey, dir, net), Kept(net.listing(CatalogUrl(apiKey)));
            && |e.signals| >= 1
            && (e.signals[|e.signals| - 1].DownloadComplete? || e.signals[|e.signals| - 1].ErrorOccurred?)
            && (forall a :: 0 <= a < |e.signals| - 1 ==> Names(e.signals[a], fonts, 0))
            && (forall a, b :: 0 <= a < b < |e.signals| - 1 ==> e.signals[a].index <= e.signals[b].index)
            && (e.signals[|e.signals| - 1].DownloadComplete? ==>
                  forall k :: 0 < k <= |fonts| ==> Reports(e.signals, 0, k))
  {
    var reply := net.listing(CatalogUrl(apiKey));
    if reply.CatalogReply? && reply.status == 200 && !reply.listing.Unparsable? {
      var w := Walk(Kept(reply), 0, State(dir, [], 0), net.font);
      WalkSignals(Kept(reply), 0, State(dir, [], 0), net.font);
      if w.Running? {
        var e := RunEffect(apiKey, dir, net);
        assert e.signals == w.st.signals + [DownloadComplete(w.st.newFonts)];
        forall k | 0 < k <= |Kept(reply)| ensures Reports(e.signals, 0, k) {
          assert Reports(w.st.signals, |State(dir, [], 0).signals|, k);
          var a :| 0 <= a < |w.st.signals| && w.st.signals[a].ProgressUpdate? && w.st.signals[a].index == k;
          assert e.signals[a] == w.st.signals[a];
        }
      }
    }
  }

  /** No file present before a run is changed or removed; a completed run
      reports exactly the number of files it added, at most one per kept entry. */
  lemma RunFiles(apiKey: string, dir: Directory, net: Network)
    ensures var e, fonts := RunEffect(apiKey, dir, net), Kept(net.listing(CatalogUrl(apiKey)));
            && dir.Keys <= e.dir.Keys
            && (forall k :: k in dir ==> e.dir[k] == dir[k])
            && |dir| <= |e.dir| <= |dir| + |fonts|
            && (e.signals[|e.signals| - 1].DownloadComplete? ==>
                  e.signals[|e.signals| - 1].newFonts == |e.dir| - |dir|)
  {
    var reply := net.listing(CatalogUrl(apiKey));
    if reply.CatalogReply? && reply.status == 200 && !reply.listing.Unparsable? {
      WalkGrowth(Kept(reply), 0, State(dir, [], 0), net.font);
    }
  }

  /** Running again over the folder a run left behind, against the same
      network, writes nothing, reports no download and completes with 0 if it
      completes; if the first run completed, the second completes with 0. */
  lemma RunIdempotent(apiKey: string, dir: Directory, net: Network)
    ensures var first := RunEffect(apiKey, dir, net);
            var second := RunEffect(apiKey, first.dir, net);
            && second.dir == first.dir
            && (forall a :: 0 <= a < |second.signals| ==> !IsDownload(second.signals[a]))
            && (second.signals[|second.signals| - 1] == DownloadComplete(0)
                || second.signals[|second.signals| - 1].ErrorOccurred?)
            && (first.signals[|first.signals| - 1].DownloadComplete? ==>
                  second.signals[|second.signals| - 1] == DownloadComplete(0))
  {
    var reply := net.listing(CatalogUrl(apiKey));
    if reply.CatalogReply? && reply.status == 200 && !reply.listing.Unparsable? {
      var fonts := Kept(reply);
      var first := Walk(fonts, 0, State(dir, [], 0), net.font).st;
      WalkIdempotent(fonts, 0, State(dir, [], 0), State(first.dir, [], 0), net.font);
    }
  }

  // ----- Scenarios -----------------------------------------------------------

  const Alef := Font("Alef", ["hebrew", "latin"], map["regular" := "URL_A"])
  const FrankRuhlLibre := Font("Frank Ruhl Libre", ["latin"], map["regular" := "URL_B"])
  const AmaticSC := Font("Amatic SC", ["hebrew"], map["regular" := "URL_B"])
  const AlefAgain := Font("Alef", ["hebrew"], map["regular" := "URL_B"])

  /** Of a Hebrew family and a Latin-only one, only the first appears in any
      signal; it is downloaded and the run completes with 1. */
  lemma ScenarioHebrewAndLatin(net: Network, body: Bytes)
    requires net.listing(CatalogUrl("key")) == CatalogReply(200, "", Items([Alef, FrankRuhlLibre]))
    requires net.font("URL_A") == Response(200, body)
    ensures RunEffect("key", map[], net)
         == Effect(map["Alef.ttf" := body],
                   [ProgressUpdate(1, Downloading("Alef")), ProgressUpdate(1, Downloaded("Alef")),
                    DownloadComplete(1)])
  {
    HebrewFontsAppend([Alef], [FrankRuhlLibre]);
    assert [Alef] + [FrankRuhlLibre] == [Alef, FrankRuhlLibre];
    HebrewFontsSingle(Alef);
    HebrewFontsSingle(FrankRuhlLibre);
    var fonts := [Alef];
    assert HebrewFonts([Alef, FrankRuhlLibre]) == fonts;
    var s0 := State(map[], [], 0);
    var s1 := State(map["Alef.ttf" := body],
                    [ProgressUpdate(1, Downloading("Alef")), ProgressUpdate(1, Downloaded("Alef"))], 1);
    assert RegularUrl(Alef) == "URL_A" && FileName("Alef") == "Alef.ttf";
    assert Step(s0, 0, Alef, net.font) == Running(s1);
    assert Walk(fonts, 0, s0, net.font) == Walk(fonts, 1, s1, net.font) == Running(s1);
  }

  /** A 404 for one family is reported and the run goes on to the next,
      which is counted; nothing is written for the failed family. */
  lemma ScenarioNotFound(net: Network, body: Bytes)
    requires net.listing(CatalogUrl("key")) == CatalogReply(200, "", Items([Alef, AmaticSC]))
    requires net.font("URL_A") == Response(404, [])
    requires net.font("URL_B") == Response(200, body)
    ensures RunEffect("key", map[], net)
         == Effect(map["Amatic SC.ttf" := body],
                   [ProgressUpdate(1, Downloading("Alef")), ProgressUpdate(1, DownloadFailed("Alef")),
                    ProgressUpdate(2, Downloading("Amatic SC")), ProgressUpdate(2, Downloaded("Amatic SC")),
                    DownloadComplete(1)])
  {
    HebrewFontsAppend([Alef], [AmaticSC]);
    assert [Alef] + [AmaticSC] == [Alef, AmaticSC];
    HebrewFontsSingle(Alef);
    HebrewFontsSingle(AmaticSC);
    var fonts := [Alef, AmaticSC];
    var s0 := State(map[], [], 0);
    var s1 := State(map[], [ProgressUpdate(1, Downloading("Alef")), ProgressUpdate(1, DownloadFailed("Alef"))], 0);
    var s2 := State(map["Amatic SC.ttf" := body],
                    s1.signals + [ProgressUpdate(2, Downloading("Amatic SC")), ProgressUpdate(2, Downloaded("Amatic SC"))], 1);
    assert RegularUrl(Alef) == "URL_A" && FileName("Alef") == "Alef.ttf";
    assert Step(s0, 0, Alef, net.font) == Running(s1);
    assert RegularUrl(AmaticSC) == "URL_B" && FileName("Amatic SC") == "Amatic SC.ttf";
    assert Step(s1, 1, AmaticSC, net.font) == Running(s2);
    assert Walk(fonts, 2, s2, net.font) == Running(s2);
    assert Walk(fonts, 1, s1, net.font) == Running(s2);
    assert Walk(fonts, 0, s0, net.font) == Running(s2);
  }

  /** A family listed twice is downloaded once: the second entry finds the
      file the first one wrote and leaves its bytes alone. */
  lemma ScenarioDuplicateFamily(net: Network, first: Bytes)
    requires net.listing(CatalogUrl("key")) == CatalogReply(200, "", Items([Alef, AlefAgain]))
    requires net.font("URL_A") == Response(200, first)
    ensures RunEffect("key", map[], net)
         == Effect(map["Alef.ttf" := first],
                   [ProgressUpdate(1, Downloading("Alef")), ProgressUpdate(1, Downloaded("Alef")),
                    ProgressUpdate(2, AlreadyDownloaded("Alef")), DownloadComplete(1)])
  {
    HebrewFontsAppend([Alef], [AlefAgain]);
    assert [Alef] + [AlefAgain] == [Alef, AlefAgain];
    HebrewFontsSingle(Alef);
    HebrewFontsSingle(AlefAgain);
    var fonts := [Alef, AlefAgain];
    var s0 := State(map[], [], 0);
    var s1 := State(map["Alef.ttf" := first],
                    [ProgressUpdate(1, Downloading("Alef")), ProgressUpdate(1, Downloaded("Alef"))], 1);
    var s2 := s1.(signals := s1.signals + [ProgressUpdate(2, AlreadyDownloaded("Alef"))]);
    assert RegularUrl(Alef) == "URL_A" && FileName("Alef") == "Alef.ttf";
    assert Step(s0, 0, Alef, net.font) == Running(s1);
    assert RegularUrl(AlefAgain) == "URL_B";
    assert Step(s1, 1, AlefAgain, net.font) == Running(s2);
    assert Walk(fonts, 2, s2, net.font) == Running(s2);
    assert Walk(fonts, 1, s1, net.font) == Running(s2);
    assert Walk(fonts, 0, s0, net.font) == Running(s2);
  }

  /** Idempotence needs the same font replies: a family that answered 404 on
      the first run and answers 200 on the second is downloaded then. */
  lemma ScenarioRetryAfterNotFound(before: Network, after: Network, body: Bytes)
    requires before.listing(CatalogUrl("key")) == CatalogReply(200, "", Items([AmaticSC]))
    requires after.listing(CatalogUrl("key")) == CatalogReply(200, "", Items([AmaticSC]))
    requires before.font("URL_B") == Response(404, [])
    requires after.font("URL_B") == Response(200, body)
    ensures RunEffect("key", map[], before).dir == map[]
    ensures RunEffect("key", RunEffect("key", map[], before).dir, after)
         == Effect(map["Amatic SC.ttf" := body],
                   [ProgressUpdate(1, Downloading("Amatic SC")), ProgressUpdate(1, Downloaded("Amatic SC")),
                    DownloadComplete(1)])
  {
    HebrewFontsSingle(AmaticSC);
    var fonts := [AmaticSC];
    assert RegularUrl(AmaticSC) == "URL_B" && FileName("Amatic SC") == "Amatic SC.ttf";
    var s0 := State(map[], [], 0);
    var failed := State(map[], [ProgressUpdate(1, Downloading("Amatic SC")), ProgressUpdate(1, DownloadFailed("Amatic SC"))], 0);
    var written := State(map["Amatic SC.ttf" := body],
                         [ProgressUpdate(1, Downloading("Amatic SC")), ProgressUpdate(1, Downloaded("Amatic SC"))], 1);
    assert Step(s0, 0, AmaticSC, before.font) == Running(failed);
    assert Walk(fonts, 0, s0, before.font) == Walk(fonts, 1, failed, before.font) == Running(failed);
    assert Step(s0, 0, AmaticSC, after.font) == Running(written);
    assert Walk(fonts, 0, s0, after.font) == Walk(fonts, 1, written, after.font) == Running(written);
  }
}

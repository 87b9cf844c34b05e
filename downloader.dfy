/** One pass of the background download thread: fetch the catalog, keep the
    Hebrew families, and for each one skip, download or report a failure,
    emitting progress signals as it goes. */
module Downloader {
  import opened Catalog

  /** The target folder's contents, keyed by file name. */
  type Directory = map<string, Bytes>

  /** The result of a GET for a font file: a reply, or a transport exception. */
  datatype FetchResult = Response(status: int, content: Bytes) | ConnectionFailed(reason: string)

  /** The network as seen by one run: the catalog request and the font requests. */
  datatype Network = Network(listing: string -> CatalogReply, font: string -> FetchResult)

  /** The message of a progress signal, one kind per message the thread emits. */
  datatype Note =
    | NoRegularStyle(family: string)
    | AlreadyDownloaded(family: string)
    | Downloading(family: string)
    | Downloaded(family: string)
    | DownloadFailed(family: string)

  /** The thread's three signals. */
  datatype Signal =
    | ProgressUpdate(index: nat, note: Note)
    | DownloadComplete(newFonts: nat)
    | ErrorOccurred(message: string)

  /** The fixed words a progress message starts with. */
  function Prefix(note: Note): string
  {
    match note
    case NoRegularStyle(_) => "Skipping "
    case AlreadyDownloaded(_) => "Skipping "
    case Downloading(_) => "Downloading "
    case Downloaded(_) => "Successfully downloaded "
    case DownloadFailed(_) => "Failed to download "
  }

  /** The fixed words a progress message ends with. */
  function Suffix(note: Note): string
  {
    match note
    case NoRegularStyle(_) => ": No regular style available"
    case AlreadyDownloaded(_) => ": Already downloaded"
    case Downloading(_) => "..."
    case Downloaded(_) => ""
    case DownloadFailed(_) => ""
  }

  /** The text carried by a progress signal: it names the family right after
      the words that say what happened. */
  function Text(note: Note): (t: string)
    ensures |t| >= |Prefix(note)| + |note.family| && |t| > |note.family|
    ensures t[|Prefix(note)|..|Prefix(note)| + |note.family|] == note.family
  {
    Prefix(note) + note.family + Suffix(note)
  }

  /** Distinct notes render to distinct texts, so what is proved about notes
      holds of the strings the thread emits. */
  lemma TextInjective(a: Note, b: Note)
    ensures Text(a) == Text(b) <==> a == b
  {
    if Text(a) == Text(b) {
      var t := Text(a);
      TextHead(a);
      TextHead(b);
      TextLast(a);
      TextLast(b);
      assert Prefix(a) == Prefix(b);
      if Suffix(a) != Suffix(b) {
        assert false;
      }
      assert a.family == t[|Prefix(a)|..|t| - |Suffix(a)|] == b.family;
    }
  }

  /** The last letter of a skip message tells its two reasons apart. */
  lemma TextLast(note: Note)
    ensures note.NoRegularStyle? ==> Text(note)[|Text(note)| - 1] == 'e'
    ensures note.AlreadyDownloaded? ==> Text(note)[|Text(note)| - 1] == 'd'
  {
    var t := Text(note);
    if note.NoRegularStyle? || note.AlreadyDownloaded? {
      assert t[|t| - 1] == Suffix(note)[|Suffix(note)| - 1];
    }
  }

  /** The first two letters of a message tell its opening words apart. */
  lemma TextHead(note: Note)
    ensures |Text(note)| >= 2
    ensures match note
            case NoRegularStyle(_) => Text(note)[..2] == "Sk"
            case AlreadyDownloaded(_) => Text(note)[..2] == "Sk"
            case Downloading(_) => Text(note)[..2] == "Do"
            case Downloaded(_) => Text(note)[..2] == "Su"
            case DownloadFailed(_) => Text(note)[..2] == "Fa"
  {
    assert Text(note)[..2] == Prefix(note)[..2];
  }

  /** The error text for a catalog reply whose status is not 200: it ends
      with the reply's own text. */
  function CatalogError(text: string): (message: string)
    ensures |message| > |text| && message[|message| - |text|..] == text
  {
    "Failed to fetch fonts: " + text
  }

  /** The state of the loop: the folder, the signals emitted by the loop so
      far, and the `new_fonts` counter. */
  datatype State = State(dir: Directory, signals: seq<Signal>, newFonts: nat)

  /** The loop either goes on, or an exception ended it. */
  datatype Progress = Running(st: State) | Raised(st: State, reason: string)

  function Emit(s: State, sig: Signal): State
  {
    s.(signals := s.signals + [sig])
  }

  /** The body of the loop for the entry at (zero-based) position i. */
  function Step(s: State, i: nat, font: Font, fetch: string -> FetchResult): (r: Progress)
    ensures s.newFonts <= r.st.newFonts <= s.newFonts + 1
    ensures |s.signals| < |r.st.signals| <= |s.signals| + 2 && r.st.signals[..|s.signals|] == s.signals
    ensures forall a :: |s.signals| <= a < |r.st.signals| ==>
              r.st.signals[a].ProgressUpdate? && r.st.signals[a].index == i + 1
              && r.st.signals[a].note.family == font.family
  {
    var url := RegularUrl(font);
    var name := FileName(font.family);
    if url == "" then
      Running(Emit(s, ProgressUpdate(i + 1, NoRegularStyle(font.family))))
    else if name in s.dir then
      Running(Emit(s, ProgressUpdate(i + 1, AlreadyDownloaded(font.family))))
    else
      var s1 := Emit(s, ProgressUpdate(i + 1, Downloading(font.family)));
      match fetch(url)
      case ConnectionFailed(reason) => Raised(s1, reason)
      case Response(status, content) =>
        if status == 200 then
          Running(State(s1.dir[name := content],
                        s1.signals + [ProgressUpdate(i + 1, Downloaded(font.family))],
                        s1.newFonts + 1))
        else
          Running(Emit(s1, ProgressUpdate(i + 1, DownloadFailed(font.family))))
  }

  /** The loop over the entries from position i on, starting in state s. */
  function Walk(fonts: seq<Font>, i: nat, s: State, fetch: string -> FetchResult): (r: Progress)
    requires i <= |fonts|
    ensures s.newFonts <= r.st.newFonts <= s.newFonts + (|fonts| - i)
    ensures |s.signals| <= |r.st.signals|
    decreases |fonts| - i
  {
    if i == |fonts| then Running(s)
    else match Step(s, i, fonts[i], fetch)
      case Running(s') => Walk(fonts, i + 1, s', fetch)
      case Raised(s', reason) => Raised(s', reason)
  }

  /** Signals emitted before the loop starts stay in front of the loop's own. */
  lemma {:induction false} WalkFromPrefix(fonts: seq<Font>, i: nat, prefix: seq<Signal>, s: State,
                                          fetch: string -> FetchResult)
    requires i <= |fonts|
    ensures var p, q := Walk(fonts, i, s.(signals := prefix + s.signals), fetch), Walk(fonts, i, s, fetch);
            p.Running? == q.Running? && p.st == q.st.(signals := prefix + q.st.signals)
            && (p.Raised? ==> p.reason == q.reason)
    decreases |fonts| - i
  {
    if i < |fonts| {
      var t := s.(signals := prefix + s.signals);
      match Step(s, i, fonts[i], fetch)
      case Running(s') =>
        assert Step(t, i, fonts[i], fetch) == Running(s'.(signals := prefix + s'.signals));
        WalkFromPrefix(fonts, i + 1, prefix, s', fetch);
      case Raised(s', reason) =>
        assert Step(t, i, fonts[i], fetch) == Raised(s'.(signals := prefix + s'.signals), reason);
    }
  }

  /** What a whole run leaves behind: the folder and the emitted signals. */
  datatype Effect = Effect(dir: Directory, signals: seq<Signal>)

  /** The whole run, from the catalog request to the completion or error signal. */
  function RunEffect(apiKey: string, dir: Directory, net: Network): (e: Effect)
    ensures |e.signals| >= 1
    ensures e.signals[|e.signals| - 1].DownloadComplete? || e.signals[|e.signals| - 1].ErrorOccurred?
  {
    match net.listing(CatalogUrl(apiKey))
    case CatalogUnreachable(reason) => Effect(dir, [ErrorOccurred(reason)])
    case CatalogReply(status, text, listing) =>
      if status != 200 then Effect(dir, [ErrorOccurred(CatalogError(text))])
      else if listing.Unparsable? then Effect(dir, [ErrorOccurred(listing.reason)])
      else
        match Walk(HebrewFonts(Fonts(listing)), 0, State(dir, [], 0), net.font)
        case Running(s) => Effect(s.dir, s.signals + [DownloadComplete(s.newFonts)])
        case Raised(s, reason) => Effect(s.dir, s.signals + [ErrorOccurred(reason)])
  }

  /** A run whose catalog reply decodes is the loop over the Hebrew families
      followed by the signal that ends it, whatever was emitted before. */
  lemma RunEffectFromWalk(apiKey: string, dir: Directory, net: Network, prefix: seq<Signal>)
    requires var reply := net.listing(CatalogUrl(apiKey));
             reply.CatalogReply? && reply.status == 200 && !reply.listing.Unparsable?
    ensures var w := Walk(HebrewFonts(Fonts(net.listing(CatalogUrl(apiKey)).listing)), 0,
                          State(dir, prefix, 0), net.font);
            && RunEffect(apiKey, dir, net).dir == w.st.dir
            && prefix + RunEffect(apiKey, dir, net).signals
               == w.st.signals + [if w.Running? then DownloadComplete(w.st.newFonts) else ErrorOccurred(w.reason)]
  {
    var fonts := HebrewFonts(Fonts(net.listing(CatalogUrl(apiKey)).listing));
    WalkFromPrefix(fonts, 0, prefix, State(dir, [], 0), net.font);
    assert State(dir, [], 0).(signals := prefix + []) == State(dir, prefix, 0);
  }

  /** The download thread: the API key it was started with, the folder it
      writes to, and the signals it has emitted. */
  class DownloadThread {
    const apiKey: string
    var disk: Directory
    var emitted: seq<Signal>

    constructor (apiKey: string, disk: Directory)
      ensures this.apiKey == apiKey && this.disk == disk && emitted == []
    {
      this.apiKey := apiKey;
      this.disk := disk;
      emitted := [];
    }

    /** One pass: the folder ends as the run leaves it and the run's signals
        are appended, in order, to those emitted before. */
    method Run(net: Network)
      modifies this
      ensures disk == RunEffect(apiKey, old(disk), net).dir
      ensures emitted == old(emitted) + RunEffect(apiKey, old(disk), net).signals
    {
      var reply := net.listing(CatalogUrl(apiKey));
      if reply.CatalogUnreachable? {
        emitted := emitted + [ErrorOccurred(reply.reason)];
        return;
      }
      if reply.status != 200 {
        emitted := emitted + [ErrorOccurred(CatalogError(reply.text))];
        return;
      }
      if reply.listing.Unparsable? {
        emitted := emitted + [ErrorOccurred(reply.listing.reason)];
        return;
      }
      var fonts := HebrewFonts(Fonts(reply.listing));
      var newFonts := 0;
      ghost var start := State(disk, emitted, 0);
      for i := 0 to |fonts|
        invariant Walk(fonts, i, State(disk, emitted, newFonts), net.font) == Walk(fonts, 0, start, net.font)
      {
        var font := fonts[i];
        var url := RegularUrl(font);
        if url == "" {
          emitted := emitted + [ProgressUpdate(i + 1, NoRegularStyle(font.family))];
          continue;
        }
        var name := FileName(font.family);
        if name in disk {
          emitted := emitted + [ProgressUpdate(i + 1, AlreadyDownloaded(font.family))];
          continue;
        }
        emitted := emitted + [ProgressUpdate(i + 1, Downloading(font.family))];
        var response := net.font(url);
        if response.ConnectionFailed? {
          emitted := emitted + [ErrorOccurred(response.reason)];
          RunEffectFromWalk(apiKey, old(disk), net, old(emitted));
          return;
        }
        if response.status == 200 {
          disk := disk[name := response.content];
          newFonts := newFonts + 1;
          emitted := emitted + [ProgressUpdate(i + 1, Downloaded(font.family))];
        } else {
          emitted := emitted + [ProgressUpdate(i + 1, DownloadFailed(font.family))];
        }
      }
      RunEffectFromWalk(apiKey, old(disk), net, old(emitted));
      emitted := emitted + [DownloadComplete(newFonts)];
    }
  }
}

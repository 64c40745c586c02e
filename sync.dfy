/**
 * One sync run: read the options, build the entries, find the boundary
 * (unless `-c` was given) and walk the entries in rank order, downloading
 * each one whose filename is not already in the output directory. The
 * feed, the directory listing and the download itself are inputs and
 * recorded actions: `items` is the parsed feed, `owned` the listing taken
 * once at start-up, and each `Fetch` stands for one `wget.download` call.
 */
module Sync {
  import opened Wrappers
  import opened PyStr
  import opened Options
  import opened Entries
  import opened Boundary

  /** What `download_module` does with one entry: reports it as already
      present, or downloads it from its URL. */
  datatype Action = Skip(filename: string) | Fetch(filename: string, url: string)

  /** `download_module`: skips exactly the modules whose filename is owned.
      It only reads `owned`; nothing in a run adds to it. */
  function DownloadModule(m: FeaturedModule, owned: set<string>): (a: Action)
    ensures a.filename == m.filename
    ensures a.Skip? <==> m.filename in owned
    ensures a.Fetch? ==> a.url == m.download
  {
    if m.filename in owned then Skip(m.filename) else Fetch(m.filename, m.download)
  }

  /** The actions for a list of entries taken in order. */
  function Decisions(ms: seq<FeaturedModule>, owned: set<string>): seq<Action> {
    seq(|ms|, x requires 0 <= x < |ms| => DownloadModule(ms[x], owned))
  }

  /** Where the main loop breaks: the position of the first key equal to
      `recent_key`, or the end of the keys. Python's None equals no key. */
  function StopIndex(keys: seq<string>, recentKey: Option<string>): (k: nat)
    ensures k <= |keys|
    ensures k < |keys| ==> Some(keys[k]) == recentKey
    ensures forall y :: 0 <= y < k ==> Some(keys[y]) != recentKey
  {
    if keys == [] || Some(keys[0]) == recentKey then 0
    else 1 + StopIndex(keys[1..], recentKey)
  }

  /** With `-c` the key is "", which no rank key equals: the loop runs to the end. */
  lemma EmptyKeyNeverStops(d: EntryDict)
    requires WellFormed(d)
    ensures StopIndex(d.keys, Some("")) == |d.keys|
  {
  }

  /** The key of rank k + 1 stops the loop after exactly k entries. */
  lemma RankKeyStops(d: EntryDict, k: nat)
    requires WellFormed(d) && k < |d.keys|
    ensures StopIndex(d.keys, Some(Str(k + 1))) == k
  {
    var j := StopIndex(d.keys, Some(Str(k + 1)));
    assert d.keys[k] == Str(k + 1);
    if j < |d.keys| {
      assert d.keys[j] == Str(j + 1);
      StrInjective(j + 1, k + 1);
    }
  }

  /** The main loop: `download_module` on each entry in key order until the
      key equal to `recent_key`. */
  method DownloadLoop(d: EntryDict, recentKey: Option<string>, owned: set<string>) returns (actions: seq<Action>)
    requires WellFormed(d)
    ensures actions == Decisions(Ranked(d)[..StopIndex(d.keys, recentKey)], owned)
  {
    actions := [];
    var i := 0;
    while i < |d.keys|
      invariant i <= |d.keys|
      invariant forall y :: 0 <= y < i ==> Some(d.keys[y]) != recentKey
      invariant actions == Decisions(Ranked(d)[..i], owned)
    {
      var key := d.keys[i];
      if Some(key) == recentKey {
        break;
      }
      assert Ranked(d)[..i + 1] == Ranked(d)[..i] + [d.modules[key]];
      actions := actions + [DownloadModule(d.modules[key], owned)];
      i := i + 1;
    }
    assert i == StopIndex(d.keys, recentKey);
  }

  /** How a run ends: stopped by a count above 40; stopped by a feed item it
      could not turn into an entry (or a feed too short for the count);
      nothing new (exit status 0); or the download actions taken, in order. */
  datatype RunOutcome =
    | Rejected(optionError: OptionError)
    | FeedError(entryError: EntryError)
    | NothingNew
    | Attempted(actions: seq<Action>)

  /** What a run does once its entries are built: with `-c`, every entry
      in rank order; otherwise every entry newer than the newest owned one,
      or nothing new when that is rank 1. */
  function Plan(countOption: bool, ms: seq<FeaturedModule>, owned: set<string>): RunOutcome {
    if countOption then Attempted(Decisions(ms, owned))
    else
      match FirstOwned(Filenames(ms), owned)
      case None => Attempted(Decisions(ms, owned))
      case Some(k) => if k == 0 then NothingNew else Attempted(Decisions(ms[..k], owned))
  }

  /** What a run does, stated on the ranked entries rather than on the dict,
      the key strings and the loop. */
  function RunSpec(opts: seq<Opt>, items: seq<FeedItem>, owned: set<string>): RunOutcome {
    match ConfigOf(opts)
    case Err(e) => Rejected(e)
    case Ok(cfg) =>
      match BuildEntries(Parsed(items), cfg.count)
      case Err(e) => FeedError(e)
      case Ok(ms) => Plan(cfg.countOption, ms, owned)
  }

  /** The part of the script after the entries are built. */
  method SyncEntries(d: EntryDict, countOption: bool, owned: set<string>) returns (o: RunOutcome)
    requires WellFormed(d)
    ensures o == Plan(countOption, Ranked(d), owned)
  {
    ghost var first := FirstOwned(Filenames(Ranked(d)), owned);
    var recentKey: Option<string>;
    if countOption {
      recentKey := Some("");
      EmptyKeyNeverStops(d);
    } else {
      var found := FindRecentModule(d, owned);
      match found
      case UpToDate =>
        return NothingNew;
      case Found(key) =>
        RankKeyStops(d, first.value);
        recentKey := Some(key);
      case NotFound =>
        recentKey := None;
    }
    var actions := DownloadLoop(d, recentKey, owned);
    assert Ranked(d)[..|d.keys|] == Ranked(d);
    o := Attempted(actions);
  }

  /** The script from the option loop to the end of the main loop. */
  method Run(opts: seq<Opt>, items: seq<FeedItem>, owned: set<string>) returns (o: RunOutcome)
    ensures o == RunSpec(opts, items, owned)
  {
    var config := ParseOptions(opts);
    if config.Err? {
      return Rejected(config.error);
    }
    var cfg := config.value;
    var entries := CreateEntryObjects(items, cfg.count);
    if entries.Err? {
      return FeedError(entries.error);
    }
    o := SyncEntries(entries.value, cfg.countOption, owned);
  }
}

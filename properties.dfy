/**
 * What a sync run promises, proved on `Plan` and `RunSpec`, which the
 * script's loops are proved to compute.
 */
module Properties {
  import opened Wrappers
  import opened Options
  import opened Entries
  import opened Boundary
  import opened Sync

  /** Without `-c` the run ends "up to date" exactly when the newest module is owned. */
  lemma UpToDateIffNewestOwned(ms: seq<FeaturedModule>, owned: set<string>)
    ensures Plan(false, ms, owned) == NothingNew <==> |ms| > 0 && ms[0].filename in owned
  {
    var names := Filenames(ms);
    if |ms| > 0 {
      assert names[0] == ms[0].filename;
    }
  }

  /** Without `-c` the run downloads exactly the owned-free prefix of the
      ranks: ranks 1..k-1 in order, where rank k is the newest owned module
      (or the whole list when none is owned); nothing is skipped and no rank
      from k on is touched. */
  lemma {:induction false} DefaultModeDownloadsNewPrefix(ms: seq<FeaturedModule>, owned: set<string>)
    requires Plan(false, ms, owned).Attempted?
    ensures var acts := Plan(false, ms, owned).actions;
      && |acts| <= |ms|
      && (forall i :: 0 <= i < |acts| ==>
            ms[i].filename !in owned && acts[i] == Fetch(ms[i].filename, ms[i].download))
      && (|acts| < |ms| ==> ms[|acts|].filename in owned)
  {
    var names := Filenames(ms);
    var acts := Plan(false, ms, owned).actions;
    match FirstOwned(names, owned)
    case None =>
      assert forall i :: 0 <= i < |ms| ==> names[i] == ms[i].filename;
    case Some(k) =>
      assert forall i :: 0 <= i <= k ==> names[i] == ms[i].filename;
      assert |acts| == k;
  }

  /** Without `-c` and with nothing owned, every entry is downloaded, rank 1 first. */
  lemma NothingOwnedDownloadsAll(ms: seq<FeaturedModule>, owned: set<string>)
    requires forall i :: 0 <= i < |ms| ==> ms[i].filename !in owned
    ensures Plan(false, ms, owned) == Attempted(seq(|ms|, i requires 0 <= i < |ms| => Fetch(ms[i].filename, ms[i].download)))
  {
    var names := Filenames(ms);
    assert forall i :: 0 <= i < |ms| ==> names[i] == ms[i].filename;
  }

  /** With `-c` every entry is attempted in rank order; the owned ones are
      skipped and the others downloaded. */
  lemma CountModeAttemptsEveryEntry(ms: seq<FeaturedModule>, owned: set<string>)
    ensures Plan(true, ms, owned).Attempted?
    ensures var acts := Plan(true, ms, owned).actions;
      && |acts| == |ms|
      && forall i :: 0 <= i < |ms| ==>
           && acts[i].filename == ms[i].filename
           && (acts[i].Skip? <==> ms[i].filename in owned)
           && (acts[i].Fetch? ==> acts[i].url == ms[i].download)
  {
  }

  /** A count above 40 ends the run before any entry is built: the outcome
      does not depend on the feed or on the owned files. */
  lemma TooLargeCountDecidesBeforeFeed(opts: seq<Opt>, items: seq<FeedItem>, owned: set<string>, i: nat)
    requires i < |opts| && opts[i].CountOpt? && opts[i].value > MaxCount
    ensures RunSpec(opts, items, owned).Rejected?
    ensures RunSpec(opts, items, owned) == RunSpec(opts, [], {})
  {
    RejectsFirstTooLarge(opts);
    assert TooLarge(opts[i]);
  }

  /** The owned set after a run, if every downloaded module lands in the
      output directory under its filename. */
  function AfterRun(o: RunOutcome, owned: set<string>): set<string> {
    if o.Attempted? then
      owned + set i | 0 <= i < |o.actions| && o.actions[i].Fetch? :: o.actions[i].filename
    else owned
  }

  predicate FetchesNothing(o: RunOutcome) {
    o.Attempted? ==> forall i :: 0 <= i < |o.actions| ==> o.actions[i].Skip?
  }

  /** A second run on the same feed, after every download of the first has
      landed under its filename, downloads nothing. */
  lemma SecondRunFetchesNothing(opts: seq<Opt>, items: seq<FeedItem>, owned: set<string>, owned': set<string>)
    requires AfterRun(RunSpec(opts, items, owned), owned) <= owned'
    ensures FetchesNothing(RunSpec(opts, items, owned'))
  {
    var first := RunSpec(opts, items, owned);
    assert owned <= owned';
    match ConfigOf(opts)
    case Err(_) =>
    case Ok(cfg) =>
      match BuildEntries(Parsed(items), cfg.count)
      case Err(_) =>
      case Ok(ms) =>
        if cfg.countOption {
          CountModeAttemptsEveryEntry(ms, owned);
          CountModeAttemptsEveryEntry(ms, owned');
          var acts := first.actions;
          forall i | 0 <= i < |ms|
            ensures ms[i].filename in owned'
          {
            if ms[i].filename !in owned {
              assert acts[i].Fetch? && acts[i].filename == ms[i].filename;
              assert ms[i].filename in AfterRun(first, owned);
            }
          }
        } else if |ms| > 0 {
          UpToDateIffNewestOwned(ms, owned);
          UpToDateIffNewestOwned(ms, owned');
          if ms[0].filename !in owned {
            DefaultModeDownloadsNewPrefix(ms, owned);
            var acts := first.actions;
            assert acts[0].Fetch? && acts[0].filename == ms[0].filename;
            assert ms[0].filename in AfterRun(first, owned);
          }
        }
  }
}

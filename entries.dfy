/**
 * Featured modules and the dictionary of them that `create_entry_objects`
 * builds: keys "1", "2", ... in feed order, rank 1 being the newest.
 */
module Entries {
  import opened Wrappers
  import opened PyStr
  import opened FilenameExtraction

  /** The parts of one feed item the sync logic reads: the HTML summary and the download link. */
  datatype FeedItem = FeedItem(summary: string, link: string)

  /** One featured module: its filename and the URL it is downloaded from. */
  datatype FeaturedModule = FeaturedModule(filename: string, download: string)

  /** Why the entries could not all be built: the summary of feed item
      `index` holds no filename (the regular expression found no match), or
      the feed ran out of items at `index`. */
  datatype EntryError = MalformedSummary(index: nat) | FeedExhausted(index: nat)

  /** The `FeaturedModule` constructor: fails, with no partial entry, when the
      summary holds no filename. */
  function NewFeaturedModule(item: FeedItem): Option<FeaturedModule> {
    match ExtractFilename(item.summary)
    case Some(name) => Some(FeaturedModule(name, item.link))
    case None => None
  }

  /** What the constructor makes of each feed item, in feed order. */
  function Parsed(items: seq<FeedItem>): (ps: seq<Option<FeaturedModule>>) {
    seq(|items|, x requires 0 <= x < |items| => NewFeaturedModule(items[x]))
  }

  /** The entries for the first `count` items, given what the constructor
      makes of each item (`parsed`), in feed order; or the error that the
      first failing item raises. */
  function BuildEntries(parsed: seq<Option<FeaturedModule>>, count: int): (r: Result<seq<FeaturedModule>, EntryError>)
    decreases if count < 0 then 0 else count
    ensures r.Ok? <==> count <= |parsed| && forall x :: 0 <= x < count ==> parsed[x].Some?
    ensures r.Ok? ==> |r.value| == (if count < 0 then 0 else count)
    ensures r.Ok? ==> forall x :: 0 <= x < |r.value| ==> parsed[x] == Some(r.value[x])
    ensures r.Err? && r.error.MalformedSummary? ==>
      var x := r.error.index;
      x < count && x < |parsed| && parsed[x].None? && forall y :: 0 <= y < x ==> parsed[y].Some?
    ensures r.Err? && r.error.FeedExhausted? ==>
      r.error.index == |parsed| < count && forall y :: 0 <= y < |parsed| ==> parsed[y].Some?
  {
    if count <= 0 then Ok([])
    else
      match BuildEntries(parsed, count - 1)
      case Err(e) => Err(e)
      case Ok(ms) =>
        if count - 1 >= |parsed| then Err(FeedExhausted(|parsed|))
        else
          match parsed[count - 1]
          case None => Err(MalformedSummary(count - 1))
          case Some(m) => Ok(ms + [m])
  }

  /** Once the first `x` items are built, an item `x` that does not parse
      decides the outcome for every larger count. */
  lemma StopsAtMalformed(parsed: seq<Option<FeaturedModule>>, x: nat, count: int)
    requires BuildEntries(parsed, x).Ok? && x < count && x < |parsed| && parsed[x].None?
    ensures BuildEntries(parsed, count) == Err(MalformedSummary(x))
  {
    var r := BuildEntries(parsed, count);
    if r.Err? && r.error.MalformedSummary? {
      assert r.error.index <= x;
      assert r.error.index >= x;
    }
  }

  /** Once every item is built, asking for more fails at the end of the feed. */
  lemma StopsAtEnd(parsed: seq<Option<FeaturedModule>>, count: int)
    requires BuildEntries(parsed, |parsed|).Ok? && |parsed| < count
    ensures BuildEntries(parsed, count) == Err(FeedExhausted(|parsed|))
  {
  }

  /** A Python dict keyed by rank strings: its keys in insertion order, and its mapping. */
  datatype EntryDict = EntryDict(keys: seq<string>, modules: map<string, FeaturedModule>)

  /** The shape `create_entry_objects` produces: key x (0-based) is str(x + 1),
      every key is mapped, and nothing else is. */
  predicate WellFormed(d: EntryDict) {
    (forall x :: 0 <= x < |d.keys| ==> d.keys[x] == Str(x + 1) && d.keys[x] in d.modules)
    && forall key :: key in d.modules ==> key in d.keys
  }

  /** The entries of a well-formed dict in key order. */
  function Ranked(d: EntryDict): (ms: seq<FeaturedModule>)
    requires WellFormed(d)
  {
    seq(|d.keys|, x requires 0 <= x < |d.keys| => d.modules[d.keys[x]])
  }

  /** Inserting the next rank's key keeps the dict well formed and appends
      the entry to the ranked view. */
  lemma InsertNext(d: EntryDict, m: FeaturedModule)
    requires WellFormed(d)
    ensures var key := Str(|d.keys| + 1);
      var d' := EntryDict(d.keys + [key], d.modules[key := m]);
      WellFormed(d') && Ranked(d') == Ranked(d) + [m]
  {
    var key := Str(|d.keys| + 1);
    forall y | 0 <= y < |d.keys|
      ensures d.keys[y] != key
    {
      StrInjective(y + 1, |d.keys| + 1);
    }
    var d' := EntryDict(d.keys + [key], d.modules[key := m]);
    assert Ranked(d') == Ranked(d) + [m];
  }

  /** `create_entry_objects`: inserts `FeaturedModule(items[x])` under key
      str(x + 1) for x in range(count). */
  method CreateEntryObjects(items: seq<FeedItem>, count: int) returns (r: Result<EntryDict, EntryError>)
    ensures r.Ok? ==> WellFormed(r.value) && BuildEntries(Parsed(items), count) == Ok(Ranked(r.value))
    ensures r.Err? ==> BuildEntries(Parsed(items), count) == Err(r.error)
  {
    var keys: seq<string> := [];
    var modules: map<string, FeaturedModule> := map[];
    var x := 0;
    assert Ranked(EntryDict(keys, modules)) == [];
    while x < count
      invariant 0 <= x && (x <= count || x == 0)
      invariant |keys| == x
      invariant WellFormed(EntryDict(keys, modules))
      invariant BuildEntries(Parsed(items), x) == Ok(Ranked(EntryDict(keys, modules)))
    {
      if x >= |items| {
        StopsAtEnd(Parsed(items), count);
        return Err(FeedExhausted(x));
      }
      var m := NewFeaturedModule(items[x]);
      assert m == Parsed(items)[x];
      if m.None? {
        StopsAtMalformed(Parsed(items), x, count);
        return Err(MalformedSummary(x));
      }
      InsertNext(EntryDict(keys, modules), m.value);
      var key := Str(x + 1);
      keys := keys + [key];
      modules := modules[key := m.value];
      x := x + 1;
    }
    r := Ok(EntryDict(keys, modules));
  }
}

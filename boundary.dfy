/**
 * `find_recent_module`: walks the ranks from the newest and stops at the
 * first module whose filename is already in the output directory. The
 * process exit taken when the newest module is owned becomes `UpToDate`.
 */
module Boundary {
  import opened Wrappers
  import opened PyStr
  import opened Entries

  /** How the search ends: the newest module is owned (the source exits with
      status 0), the key of the newest owned module of a later rank, or no
      owned module at all (the source falls off the loop and returns None). */
  datatype SearchResult = UpToDate | Found(key: string) | NotFound

  function Filenames(ms: seq<FeaturedModule>): seq<string> {
    seq(|ms|, x requires 0 <= x < |ms| => ms[x].filename)
  }

  /** The 0-based position of the first owned name, newest first. */
  function FirstOwned(names: seq<string>, owned: set<string>): (r: Option<nat>)
    ensures r.Some? ==> r.value < |names| && names[r.value] in owned
    ensures r.Some? ==> forall y :: 0 <= y < r.value ==> names[y] !in owned
    ensures r.None? <==> forall y :: 0 <= y < |names| ==> names[y] !in owned
  {
    if names == [] then None
    else if names[0] in owned then Some(0)
    else
      match FirstOwned(names[1..], owned)
      case None => None
      case Some(k) => Some(k + 1)
  }

  /** The search result for a first owned position (0-based). */
  function Classify(first: Option<nat>): SearchResult {
    match first
    case None => NotFound
    case Some(x) => if x == 0 then UpToDate else Found(Str(x + 1))
  }

  /** The three outcomes of the search, stated on the ranked entries: the
      newest module owned; a later rank owned, none before it; nothing owned. */
  lemma SearchOutcomes(d: EntryDict, owned: set<string>)
    requires WellFormed(d)
    ensures var r := Classify(FirstOwned(Filenames(Ranked(d)), owned));
      && (r.UpToDate? <==> |d.keys| > 0 && Ranked(d)[0].filename in owned)
      && (r.NotFound? <==> forall x :: 0 <= x < |d.keys| ==> Ranked(d)[x].filename !in owned)
      && (r.Found? ==>
            exists x :: 0 < x < |d.keys| && r.key == d.keys[x] && Ranked(d)[x].filename in owned
                        && forall y :: 0 <= y < x ==> Ranked(d)[y].filename !in owned)
  {
    var names := Filenames(Ranked(d));
    var first := FirstOwned(names, owned);
    if first.Some? {
      var x := first.value;
      assert names[x] == Ranked(d)[x].filename;
      assert forall y :: 0 <= y < x ==> names[y] == Ranked(d)[y].filename;
      if x > 0 {
        assert d.keys[x] == Str(x + 1);
        assert names[0] == Ranked(d)[0].filename;
        var r := Classify(first);
        assert r.key == d.keys[x] && Ranked(d)[x].filename in owned;
        assert forall y :: 0 <= y < x ==> Ranked(d)[y].filename !in owned;
      }
    } else {
      assert forall y :: 0 <= y < |d.keys| ==> names[y] == Ranked(d)[y].filename;
    }
  }

  method FindRecentModule(d: EntryDict, owned: set<string>) returns (r: SearchResult)
    requires WellFormed(d)
    ensures r == Classify(FirstOwned(Filenames(Ranked(d)), owned))
  {
    ghost var names := Filenames(Ranked(d));
    for x := 0 to |d.keys|
      invariant forall y :: 0 <= y < x ==> names[y] !in owned
    {
      assert d.keys[x] == Str(x + 1) && d.keys[x] in d.modules;
      var obj := d.modules[Str(x + 1)];
      assert obj.filename == names[x];
      if obj.filename in owned {
        assert FirstOwned(names, owned) == Some(x);
        if x == 0 {
          return UpToDate;
        } else {
          return Found(Str(x + 1));
        }
      }
    }
    assert FirstOwned(names, owned) == None;
    return NotFound;
  }
}

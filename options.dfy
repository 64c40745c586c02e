/**
 * The command-line options the sync run reads: `-c/--count N` sets how many
 * featured modules to fetch (at most 40) and switches off the boundary
 * search; `-h/--help` only prints usage and does not stop the run.
 */
module Options {
  import opened Wrappers

  /** The largest count `-c` accepts, and the count used without `-c`. */
  const MaxCount: int := 40
  const DefaultCount: int := 40

  /** One option as `getopt` hands it over, its value already converted by `int()`. */
  datatype Opt = CountOpt(value: int) | HelpOpt

  /** What the option loop leaves behind: `count` and `count_option`. */
  datatype Config = Config(count: int, countOption: bool)

  /** The run stops with "Count must be less than or equal to 40". */
  datatype OptionError = CountTooLarge(value: int)

  predicate TooLarge(o: Opt) {
    o.CountOpt? && o.value > MaxCount
  }

  /** The configuration the options give, or the first count that is too large. */
  function ConfigOf(opts: seq<Opt>): Result<Config, OptionError> {
    if opts == [] then Ok(Config(DefaultCount, false))
    else
      var prev := ConfigOf(opts[..|opts| - 1]);
      if prev.Err? then prev
      else
        match opts[|opts| - 1]
        case HelpOpt => prev
        case CountOpt(v) => if v > MaxCount then Err(CountTooLarge(v)) else Ok(Config(v, true))
  }

  /** The options are rejected exactly when some `-c` value exceeds 40, and
      the error names the first such value. */
  lemma {:induction false} RejectsFirstTooLarge(opts: seq<Opt>)
    ensures ConfigOf(opts).Err? <==> exists i :: 0 <= i < |opts| && TooLarge(opts[i])
    ensures ConfigOf(opts).Err? ==>
      exists i :: 0 <= i < |opts| && TooLarge(opts[i]) && ConfigOf(opts).error.value == opts[i].value
                  && forall j :: 0 <= j < i ==> !TooLarge(opts[j])
  {
    if opts != [] {
      var n := |opts| - 1;
      var init := opts[..n];
      RejectsFirstTooLarge(init);
      assert forall i :: 0 <= i < n ==> init[i] == opts[i];
      if ConfigOf(init).Err? {
        var i :| 0 <= i < n && TooLarge(init[i]) && ConfigOf(init).error.value == init[i].value
                 && forall j :: 0 <= j < i ==> !TooLarge(init[j]);
        assert TooLarge(opts[i]);
      } else if TooLarge(opts[n]) {
        assert forall j :: 0 <= j < n ==> !TooLarge(opts[j]);
      } else {
        assert forall j :: 0 <= j < n ==> !TooLarge(opts[j]);
      }
    }
  }

  /** Accepted options give a count of at most 40: the last `-c` value when
      there is one (and `count_option` set), 40 otherwise. */
  lemma {:induction false} AcceptedCount(opts: seq<Opt>)
    requires ConfigOf(opts).Ok?
    ensures ConfigOf(opts).value.count <= MaxCount
    ensures ConfigOf(opts).value.countOption <==> exists i :: 0 <= i < |opts| && opts[i].CountOpt?
    ensures !ConfigOf(opts).value.countOption ==> ConfigOf(opts).value.count == DefaultCount
    ensures ConfigOf(opts).value.countOption ==>
      exists i :: 0 <= i < |opts| && opts[i] == CountOpt(ConfigOf(opts).value.count)
                  && forall j :: i < j < |opts| ==> opts[j] == HelpOpt
  {
    if opts != [] {
      var n := |opts| - 1;
      var init := opts[..n];
      AcceptedCount(init);
      assert forall i :: 0 <= i < n ==> init[i] == opts[i];
      var cfg := ConfigOf(opts).value;
      if opts[n].CountOpt? {
        assert opts[n] == CountOpt(cfg.count);
      } else if cfg.countOption {
        var i :| 0 <= i < n && init[i] == CountOpt(cfg.count) && forall j :: i < j < n ==> init[j] == HelpOpt;
        assert opts[i] == CountOpt(cfg.count);
      } else {
        assert forall i :: 0 <= i < n ==> !init[i].CountOpt?;
      }
    }
  }

  /** Options after a count that is too large change nothing: the run has already stopped. */
  lemma {:induction false} StopsAtTooLarge(opts: seq<Opt>, n: nat)
    requires n <= |opts| && ConfigOf(opts[..n]).Err?
    ensures ConfigOf(opts) == ConfigOf(opts[..n])
    decreases |opts| - n
  {
    if n < |opts| {
      assert opts[..n + 1][..n] == opts[..n];
      StopsAtTooLarge(opts, n + 1);
    } else {
      assert opts[..n] == opts;
    }
  }

  /** The option loop: `-c v` sets `count` to v and `count_option`, then
      stops the run if v exceeds 40; `-h` prints usage and goes on. */
  method ParseOptions(opts: seq<Opt>) returns (r: Result<Config, OptionError>)
    ensures r == ConfigOf(opts)
  {
    var count := DefaultCount;
    var countOption := false;
    for i := 0 to |opts|
      invariant ConfigOf(opts[..i]) == Ok(Config(count, countOption))
    {
      assert opts[..i + 1][..i] == opts[..i];
      match opts[i]
      case CountOpt(v) =>
        count := v;
        countOption := true;
        if count > MaxCount {
          StopsAtTooLarge(opts, i + 1);
          return Err(CountTooLarge(count));
        }
      case HelpOpt =>
    }
    assert opts[..|opts|] == opts;
    r := Ok(Config(count, countOption));
  }
}

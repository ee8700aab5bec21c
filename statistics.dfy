/** The statistics store of crawler_src/crawl.py: `StatisticsCrawler`, whose
    dictionary `stats` holds two sets of domains (`failed_to_find_accept`,
    `time_out`) and two per-URL lists of page-load times
    (`page_load_times_allow`, `page_load_times_block`), updated in place. */
module Statistics {
  import opened Base

  /** `accept_block`: the name of a crawl variant. */
  function AcceptBlock(block: bool): (variant: string)
    ensures variant == "block" <==> block
    ensures variant == "allow" <==> !block
    ensures |variant| == 5
  {
    if block then "block" else "allow"
  }

  /** The four entries of the `stats` dictionary. Load times are the
      `time.time()` differences the crawler measures. */
  datatype Stats = Stats(
    failedToFindAccept: set<string>,
    timeOut: set<string>,
    pageLoadTimesAllow: seq<seq<real>>,
    pageLoadTimesBlock: seq<seq<real>>)

  /** The per-URL load-time lists of one variant. */
  function Samples(s: Stats, block: bool): seq<seq<real>> {
    if block then s.pageLoadTimesBlock else s.pageLoadTimesAllow
  }

  /** The dictionary `__init__` builds for `amountOfUrls` URLs. */
  function InitialStats(amountOfUrls: nat): (s: Stats)
    ensures s.failedToFindAccept == {} && s.timeOut == {}
    ensures forall block :: |Samples(s, block)| == amountOfUrls
    ensures forall block, i :: 0 <= i < amountOfUrls ==> Samples(s, block)[i] == []
  {
    Stats({}, {}, seq(amountOfUrls, _ => []), seq(amountOfUrls, _ => []))
  }

  /** Python's list index `i` on a list of length `n`: a negative index
      counts from the end; `None` where Python raises IndexError. */
  function PyIndex(i: int, n: nat): (k: Option<nat>)
    ensures k.Some? <==> -(n as int) <= i < n
    ensures k.Some? ==> k.value < n && k.value % n == i % n
    ensures 0 <= i < n ==> k == Some(i)
  {
    if 0 <= i < n then Some(i)
    else if -(n as int) <= i < 0 then Some(n + i)
    else None
  }

  /** `update_stat_single_set`: `stats[statName].add(value)`. Only the two
      set entries accept it; a list entry has no `add` (AttributeError) and
      any other name is missing (KeyError). */
  function AddToSet(s: Stats, statName: string, value: string): (r: Outcome<Stats>)
    ensures r.Success? <==> statName == "failed_to_find_accept" || statName == "time_out"
    ensures r.Failure? ==> r.error == (if statName == "page_load_times_allow" || statName == "page_load_times_block" then AttributeError else KeyError)
    ensures r.Success? ==> value in (if statName == "time_out" then r.value.timeOut else r.value.failedToFindAccept)
    ensures r.Success? ==>
      && r.value.failedToFindAccept == s.failedToFindAccept + (if statName == "failed_to_find_accept" then {value} else {})
      && r.value.timeOut == s.timeOut + (if statName == "time_out" then {value} else {})
      && r.value.pageLoadTimesAllow == s.pageLoadTimesAllow
      && r.value.pageLoadTimesBlock == s.pageLoadTimesBlock
  {
    if statName == "failed_to_find_accept" then Success(s.(failedToFindAccept := s.failedToFindAccept + {value}))
    else if statName == "time_out" then Success(s.(timeOut := s.timeOut + {value}))
    else if statName == "page_load_times_allow" || statName == "page_load_times_block" then Failure(AttributeError)
    else Failure(KeyError)
  }

  /** Adding a value twice leaves the store as one add does. */
  lemma AddToSetIdempotent(s: Stats, statName: string, value: string)
    requires AddToSet(s, statName, value).Success?
    ensures AddToSet(AddToSet(s, statName, value).value, statName, value) == AddToSet(s, statName, value)
  {
  }

  /** Adds to the sets commute. */
  lemma AddToSetCommutes(s: Stats, name1: string, value1: string, name2: string, value2: string)
    requires AddToSet(s, name1, value1).Success? && AddToSet(s, name2, value2).Success?
    ensures AddToSet(AddToSet(s, name1, value1).value, name2, value2) ==
            AddToSet(AddToSet(s, name2, value2).value, name1, value1)
  {
    var a := AddToSet(AddToSet(s, name1, value1).value, name2, value2).value;
    var b := AddToSet(AddToSet(s, name2, value2).value, name1, value1).value;
    assert a.failedToFindAccept == b.failedToFindAccept;
    assert a.timeOut == b.timeOut;
  }

  /** `stat_name + '_' + accept_block(block)` names the same entry for two
      calls exactly when both the name and the variant agree. */
  lemma StatKey(name1: string, block1: bool, name2: string, block2: bool)
    ensures name1 + "_" + AcceptBlock(block1) == name2 + "_" + AcceptBlock(block2) <==> name1 == name2 && block1 == block2
  {
    var k1 := name1 + "_" + AcceptBlock(block1);
    var k2 := name2 + "_" + AcceptBlock(block2);
    if k1 == k2 {
      assert |name1| == |name2|;
      assert name1 == k1[..|name1|] && name2 == k2[..|name2|];
      assert AcceptBlock(block1) == k1[|name1| + 1..] && AcceptBlock(block2) == k2[|name2| + 1..];
    }
  }

  /** `update_stat`: `stats[statName + '_' + accept_block(block)][urlIndex].append(value)`. */
  function AppendSample(s: Stats, statName: string, block: bool, value: real, urlIndex: int): (r: Outcome<Stats>)
    ensures r.Success? <==> statName == "page_load_times" && PyIndex(urlIndex, |Samples(s, block)|).Some?
    ensures r.Failure? ==> r.error == (if statName == "page_load_times" then IndexError else KeyError)
    ensures r.Success? ==>
      var k := PyIndex(urlIndex, |Samples(s, block)|).value;
      && |Samples(r.value, block)| == |Samples(s, block)|
      && Samples(r.value, block)[k] == Samples(s, block)[k] + [value]
      && (forall j :: 0 <= j < |Samples(s, block)| && j != k ==> Samples(r.value, block)[j] == Samples(s, block)[j])
      && Samples(r.value, !block) == Samples(s, !block)
      && r.value.failedToFindAccept == s.failedToFindAccept
      && r.value.timeOut == s.timeOut
  {
    var key := statName + "_" + AcceptBlock(block);
    StatKey(statName, block, "page_load_times", false);
    StatKey(statName, block, "page_load_times", true);
    assert "page_load_times" + "_" + AcceptBlock(false) == "page_load_times_allow";
    assert "page_load_times" + "_" + AcceptBlock(true) == "page_load_times_block";
    if key == "page_load_times_allow" then
      match PyIndex(urlIndex, |s.pageLoadTimesAllow|)
      case None => Failure(IndexError)
      case Some(k) => Success(s.(pageLoadTimesAllow := s.pageLoadTimesAllow[k := s.pageLoadTimesAllow[k] + [value]]))
    else if key == "page_load_times_block" then
      match PyIndex(urlIndex, |s.pageLoadTimesBlock|)
      case None => Failure(IndexError)
      case Some(k) => Success(s.(pageLoadTimesBlock := s.pageLoadTimesBlock[k := s.pageLoadTimesBlock[k] + [value]]))
    else Failure(KeyError)
  }

  /** The store after an update: the new one, or the old one when Python
      raised before changing anything. */
  function StateAfter(r: Outcome<Stats>, s: Stats): Stats {
    if r.Success? then r.value else s
  }

  /** The exception an update raised, if any. */
  function Raised(r: Outcome<Stats>): Option<Exception> {
    if r.Success? then None else Some(r.error)
  }

  class StatisticsCrawler {
    var stats: Stats

    /** `__init__`: empty sets and one empty list per URL in each variant. */
    constructor (amountOfUrls: nat)
      ensures stats == InitialStats(amountOfUrls)
    {
      stats := InitialStats(amountOfUrls);
    }

    /** `update_stat_single_set`. */
    method UpdateStatSingleSet(statName: string, value: string) returns (raised: Option<Exception>)
      modifies this
      ensures stats == StateAfter(AddToSet(old(stats), statName, value), old(stats))
      ensures raised == Raised(AddToSet(old(stats), statName, value))
    {
      var updated := AddToSet(stats, statName, value);
      raised := Raised(updated);
      stats := StateAfter(updated, stats);
    }

    /** `update_stat`. */
    method UpdateStat(statName: string, block: bool, value: real, urlIndex: int) returns (raised: Option<Exception>)
      modifies this
      ensures stats == StateAfter(AppendSample(old(stats), statName, block, value, urlIndex), old(stats))
      ensures raised == Raised(AppendSample(old(stats), statName, block, value, urlIndex))
    {
      var updated := AppendSample(stats, statName, block, value, urlIndex);
      raised := Raised(updated);
      stats := StateAfter(updated, stats);
    }

    /** `get_stats`: the store as it stands, read without changing it. */
    function GetStats(): (current: Stats)
      reads this
      ensures current == stats
    {
      stats
    }
  }
}

/**
 * The bird data the clock loads once at start: seasons with their months,
 * one quiet-hours window per season, and the birds with their per-season
 * "HH:MM" times, each collection in the order of the data file. Also the
 * lookups the resolver makes in it: the first season covering a month, and the
 * season's merged schedule (a Python dict from time to bird).
 */
module BirdData {
  import opened Wrappers
  import opened TimeText

  datatype Season = Season(id: string, months: seq<int>)

  datatype Window = Window(start: string, end: string)

  datatype Bird = Bird(key: string, name: string, slug: string, seasons: map<string, seq<string>>)

  datatype Catalog = Catalog(seasons: seq<Season>, quietHours: map<string, Window>, birds: seq<Bird>)

  /**
   * The position of the first season, in data order, whose months contain
   * `month`; None where the source's `next(...)` raises StopIteration.
   */
  function FirstSeason(seasons: seq<Season>, month: int): (r: Option<nat>)
    ensures r.None? <==> forall j :: 0 <= j < |seasons| ==> month !in seasons[j].months
    ensures r.Some? ==> r.value < |seasons| && month in seasons[r.value].months
    ensures r.Some? ==> forall j :: 0 <= j < r.value ==> month !in seasons[j].months
  {
    if |seasons| == 0 then None
    else if month in seasons[0].months then Some(0)
    else match FirstSeason(seasons[1..], month)
      case None => None
      case Some(i) => Some(i + 1)
  }

  /** When every month 1..12 lies in exactly one season, the lookup finds that season. */
  lemma {:induction false} PartitionFindsTheSeason(seasons: seq<Season>, month: int, i: nat)
    requires i < |seasons| && month in seasons[i].months
    requires forall j :: 0 <= j < |seasons| && j != i ==> month !in seasons[j].months
    ensures FirstSeason(seasons, month) == Some(i)
  {
  }

  /** `info["seasons"].get(season, [])`. */
  function TimesIn(bird: Bird, season: string): seq<string>
  {
    if season in bird.seasons then bird.seasons[season] else []
  }

  /** The (time, bird) pairs of one bird for a season, in its list order. */
  function BirdEntries(bird: Bird, season: string): (e: seq<(string, string)>)
    ensures forall p :: p in e <==> p.0 in TimesIn(bird, season) && p.1 == bird.key
  {
    var times := TimesIn(bird, season);
    var e := seq(|times|, i requires 0 <= i < |times| => (times[i], bird.key));
    assert forall i :: 0 <= i < |times| ==> e[i] == (times[i], bird.key) && e[i] in e;
    e
  }

  /**
   * The (time, bird) pairs the dict comprehension iterates over: birds in data
   * order, each bird's times in list order.
   */
  function Entries(birds: seq<Bird>, season: string): seq<(string, string)>
  {
    if |birds| == 0 then [] else BirdEntries(birds[0], season) + Entries(birds[1..], season)
  }

  /** A pair is iterated over exactly when some bird lists that time for the season. */
  lemma {:induction false} EntriesExactly(birds: seq<Bird>, season: string, time: string, key: string)
    ensures (time, key) in Entries(birds, season) <==>
      exists b :: 0 <= b < |birds| && birds[b].key == key && time in TimesIn(birds[b], season)
  {
    if |birds| != 0 {
      EntriesExactly(birds[1..], season, time, key);
      if exists b :: 0 <= b < |birds| && birds[b].key == key && time in TimesIn(birds[b], season) {
        var b :| 0 <= b < |birds| && birds[b].key == key && time in TimesIn(birds[b], season);
        if b > 0 {
          assert birds[1..][b - 1] == birds[b];
        }
      }
      if exists b :: 0 <= b < |birds| - 1 && birds[1..][b].key == key && time in TimesIn(birds[1..][b], season) {
        var b :| 0 <= b < |birds| - 1 && birds[1..][b].key == key && time in TimesIn(birds[1..][b], season);
        assert birds[b + 1] == birds[1..][b];
      }
    }
  }

  /** A Python dict from time to bird: its keys in insertion order and its bindings. */
  datatype Dict = Dict(keys: seq<string>, vals: map<string, string>)

  /** `d[k] = v`: a new key goes to the end, an existing key keeps its place and takes the new value. */
  function Insert(d: Dict, k: string, v: string): Dict
  {
    if k in d.vals then d.(vals := d.vals[k := v]) else Dict(d.keys + [k], d.vals[k := v])
  }

  /** No later pair of `entries` binds the time of pair `i`. */
  predicate LastFor(entries: seq<(string, string)>, i: int)
    requires 0 <= i < |entries|
  {
    forall j :: i < j < |entries| ==> entries[j].0 != entries[i].0
  }

  /**
   * `d` is what the dict comprehension `{time: bird for ...}` makes of
   * `entries`: every time is a key exactly once, and it is bound to the bird of
   * the last pair naming it.
   */
  ghost predicate Merges(d: Dict, entries: seq<(string, string)>)
  {
    && (forall i, j :: 0 <= i < j < |d.keys| ==> d.keys[i] != d.keys[j])
    && (forall k :: k in d.keys <==> k in d.vals)
    && (forall k :: k in d.vals <==> exists i :: 0 <= i < |entries| && entries[i].0 == k)
    && (forall i :: 0 <= i < |entries| && LastFor(entries, i) ==> d.vals[entries[i].0] == entries[i].1)
  }

  lemma InsertMerges(d: Dict, entries: seq<(string, string)>, k: string, v: string)
    requires Merges(d, entries)
    ensures Merges(Insert(d, k, v), entries + [(k, v)])
  {
    var e := entries + [(k, v)];
    var r := Insert(d, k, v);
    forall i | 0 <= i < |e| && LastFor(e, i) ensures r.vals[e[i].0] == e[i].1 {
      if i < |entries| {
        assert e[i] == entries[i];
        assert e[|entries|] == (k, v);
        assert LastFor(entries, i) by {
          forall j | i < j < |entries| ensures entries[j].0 != entries[i].0 {
            assert e[j] == entries[j];
          }
        }
      }
    }
    forall x | x in r.vals ensures exists i :: 0 <= i < |e| && e[i].0 == x {
      if x == k {
        assert e[|entries|].0 == x;
      } else {
        var i :| 0 <= i < |entries| && entries[i].0 == x;
        assert e[i] == entries[i];
      }
    }
  }

  /** The dict comprehension `{time: bird for (time, bird) in entries}`, one assignment at a time. */
  function Build(entries: seq<(string, string)>): Dict
  {
    if |entries| == 0 then Dict([], map[])
    else
      var n := |entries| - 1;
      Insert(Build(entries[..n]), entries[n].0, entries[n].1)
  }

  /** Building keeps each time once and binds it to the last pair naming it. */
  lemma {:induction false} BuildMerges(entries: seq<(string, string)>)
    ensures Merges(Build(entries), entries)
  {
    if |entries| != 0 {
      var n := |entries| - 1;
      assert entries == entries[..n] + [(entries[n].0, entries[n].1)];
      BuildMerges(entries[..n]);
      InsertMerges(Build(entries[..n]), entries[..n], entries[n].0, entries[n].1);
    }
  }

  /** The season's merged schedule, `scheduled_birds` in the source. */
  function Schedule(c: Catalog, season: string): Dict
  {
    Build(Entries(c.birds, season))
  }

  /** `[time for time in keys if time <= now]`. */
  function Candidates(keys: seq<string>, now: string): (r: seq<string>)
    ensures forall k :: k in r <==> k in keys && StrLe(k, now)
  {
    if |keys| == 0 then []
    else (if StrLe(keys[0], now) then [keys[0]] else []) + Candidates(keys[1..], now)
  }

  /** Python's `max` over a non-empty list of strings: it keeps the first item and replaces it by any greater one. */
  function Max(s: seq<string>): (m: string)
    requires |s| > 0
    ensures m in s
    ensures forall x :: x in s ==> StrLe(x, m)
  {
    if |s| == 1 then StrLeReflexive(s[0]); s[0]
    else
      var m' := Max(s[..|s| - 1]);
      var last := s[|s| - 1];
      assert s == s[..|s| - 1] + [last];
      MaxStep(s[..|s| - 1], m', last);
      if StrLt(m', last) then last else m'
  }

  lemma MaxStep(prefix: seq<string>, m: string, last: string)
    requires forall x :: x in prefix ==> StrLe(x, m)
    ensures forall x :: x in prefix + [last] ==> StrLe(x, if StrLt(m, last) then last else m)
  {
    StrLtIsStrictLe(m, last);
    StrLeTotal(m, last);
    StrLeReflexive(last);
    forall x | x in prefix + [last] ensures StrLe(x, if StrLt(m, last) then last else m) {
      if x in prefix && StrLt(m, last) {
        StrLeTransitive(x, m, last);
      }
    }
  }
}

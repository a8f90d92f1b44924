/**
 * The configuration store the launcher reads: named sections, each an
 * ordered list of `key=value` lines. The store is an explicit value rather
 * than the process-wide active configuration.
 */
module Config {
  import opened Wrappers

  datatype Line = Line(key: string, value: string)

  type Section = seq<Line>

  type Store = map<string, Section>

  const SaveSection := "zdl.save"
  const IwadsSection := "zdl.iwads"
  const PortsSection := "zdl.ports"
  const NetSection := "zdl.net"
  const GeneralSection := "zdl.general"

  /** The lines of a section; a missing section reads as an empty one. */
  function Lines(store: Store, name: string): (sec: Section)
    ensures name !in store ==> sec == []
    ensures name in store ==> sec == store[name]
  {
    if name in store then store[name] else []
  }

  /** The values of all lines whose key is exactly `key`, in section order:
      what a scan with a literal, anchored key pattern returns. */
  function ValuesOf(sec: Section, key: string): seq<string> {
    if |sec| == 0 then []
    else if sec[0].key == key then [sec[0].value] + ValuesOf(sec[1..], key)
    else ValuesOf(sec[1..], key)
  }

  /** The scan returns the values of the matching lines and nothing else,
      and it returns exactly one value exactly when exactly one line has
      the key. */
  lemma {:induction false} ValuesOfSpec(sec: Section, key: string)
    ensures |ValuesOf(sec, key)| <= |sec|
    ensures forall v :: v in ValuesOf(sec, key) <==> exists i :: 0 <= i < |sec| && sec[i].key == key && sec[i].value == v
    ensures |ValuesOf(sec, key)| == 0 <==> forall i :: 0 <= i < |sec| ==> sec[i].key != key
    ensures |ValuesOf(sec, key)| == 1 <==> exists i :: OnlyLineWithKey(sec, key, i)
  {
    if |sec| > 0 {
      var tail := sec[1..];
      ValuesOfSpec(tail, key);
      assert forall i :: 1 <= i < |sec| ==> sec[i] == tail[i - 1];
      if sec[0].key == key {
        if |ValuesOf(tail, key)| == 0 {
          assert OnlyLineWithKey(sec, key, 0);
        } else {
          forall i | 0 <= i < |sec| ensures !OnlyLineWithKey(sec, key, i) {
            var v := ValuesOf(tail, key)[0];
            assert v in ValuesOf(tail, key);
            var m :| 0 <= m < |tail| && tail[m].key == key && tail[m].value == v;
            assert sec[m + 1].key == key;
          }
        }
      } else {
        if exists i :: OnlyLineWithKey(tail, key, i) {
          var i :| OnlyLineWithKey(tail, key, i);
          assert OnlyLineWithKey(sec, key, i + 1);
        }
        if exists i :: OnlyLineWithKey(sec, key, i) {
          var i :| OnlyLineWithKey(sec, key, i);
          assert OnlyLineWithKey(tail, key, i - 1);
        }
      }
    }
  }

  /** Line `i` is the one and only line with key `key`. */
  predicate OnlyLineWithKey(sec: Section, key: string, i: int) {
    0 <= i < |sec| && sec[i].key == key && forall m :: 0 <= m < |sec| && sec[m].key == key ==> m == i
  }

  /** The scan reads the lines one at a time, in order: one value per line
      with the key, none for any other line. */
  lemma {:induction false} ValuesOfAppend(a: Section, b: Section, key: string)
    ensures ValuesOf(a + b, key) == ValuesOf(a, key) + ValuesOf(b, key)
    ensures forall l: Line :: ValuesOf([l], key) == if l.key == key then [l.value] else []
  {
    if |a| > 0 {
      assert (a + b)[1..] == a[1..] + b;
      ValuesOfAppend(a[1..], b, key);
    } else {
      assert a + b == b;
    }
    forall l: Line ensures ValuesOf([l], key) == if l.key == key then [l.value] else [] {
      assert [l][1..] == [];
    }
  }

  /** The value of the first line with key `key`. */
  function Lookup(sec: Section, key: string): Option<string> {
    if |sec| == 0 then None
    else if sec[0].key == key then Some(sec[0].value)
    else Lookup(sec[1..], key)
  }

  /** `Lookup` finds a value exactly when some line has the key, and the
      value it finds is that of the first such line. */
  lemma {:induction false} LookupSpec(sec: Section, key: string)
    ensures Lookup(sec, key).None? <==> forall i :: 0 <= i < |sec| ==> sec[i].key != key
    ensures Lookup(sec, key).Some? ==>
              exists i :: 0 <= i < |sec| && sec[i].key == key && sec[i].value == Lookup(sec, key).value
                          && forall j :: 0 <= j < i ==> sec[j].key != key
  {
    if |sec| > 0 && sec[0].key != key {
      LookupSpec(sec[1..], key);
      assert forall i :: 1 <= i < |sec| ==> sec[i] == sec[1..][i - 1];
      if Lookup(sec, key).Some? {
        var i :| 0 <= i < |sec[1..]| && sec[1..][i].key == key && sec[1..][i].value == Lookup(sec, key).value
                 && forall j :: 0 <= j < i ==> sec[1..][j].key != key;
        assert sec[i + 1].key == key;
      }
    }
  }

  /** The first-line lookup agrees with the first of all matching values. */
  lemma {:induction false} LookupIsFirstValue(sec: Section, key: string)
    ensures Lookup(sec, key) == (if |ValuesOf(sec, key)| > 0 then Some(ValuesOf(sec, key)[0]) else None)
  {
    if |sec| > 0 && sec[0].key != key {
      LookupIsFirstValue(sec[1..], key);
    }
  }

  /** `getValue(section, key)` guarded by `hasValue(section, key)`. */
  function Get(store: Store, section: string, key: string): Option<string> {
    Lookup(Lines(store, section), key)
  }

  /** `hasValue(section, key)`. */
  predicate Has(store: Store, section: string, key: string) {
    Get(store, section, key).Some?
  }
}

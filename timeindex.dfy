/** The calendar's ordered index, a java.util.TreeMap from date-time to event,
    modelled as a strictly ascending sequence of slots so that in-order traversal
    is simply the sequence. */
module TimeIndex {
  import opened DateTimes
  import opened Events

  datatype Slot = Slot(at: DateTime, event: Event)

  /** Keys strictly ascending, hence also distinct. */
  predicate Ascending(s: seq<Slot>) {
    forall i, j :: 0 <= i < j < |s| ==> Before(s[i].at, s[j].at)
  }

  function Times(s: seq<Slot>): set<DateTime> {
    set x | x in s :: x.at
  }

  /** The map the slots stand for. */
  function Contents(s: seq<Slot>): (m: map<DateTime, Event>)
    ensures m.Keys == Times(s)
  {
    if s == [] then map[] else Contents(s[1..])[s[0].at := s[0].event]
  }

  /** In a strictly ascending index every slot is what the map holds at its key. */
  lemma {:induction false} ContentsAt(s: seq<Slot>, i: int)
    requires Ascending(s) && 0 <= i < |s|
    ensures Contents(s)[s[i].at] == s[i].event
  {
    if i > 0 {
      ContentsAt(s[1..], i - 1);
      assert s[1..][i - 1] == s[i];
      assert s[i].at != s[0].at by { assert Before(s[0].at, s[i].at); BeforeTotal(s[0].at, s[i].at); }
    }
  }

  /** The tail of an ascending index is ascending and lies strictly after its head. */
  lemma AscendingTail(s: seq<Slot>)
    requires Ascending(s) && s != []
    ensures Ascending(s[1..])
    ensures forall x :: x in s[1..] ==> Before(s[0].at, x.at)
    ensures s[0].at !in Times(s[1..])
    ensures Times(s) == {s[0].at} + Times(s[1..])
  {
    var t := s[1..];
    forall i, j | 0 <= i < j < |t| ensures Before(t[i].at, t[j].at) {
      assert t[i] == s[i + 1] && t[j] == s[j + 1];
    }
    forall x | x in t ensures Before(s[0].at, x.at) && x.at != s[0].at {
      var j :| 0 <= j < |t| && t[j] == x;
      assert s[j + 1] == x;
      BeforeTotal(s[0].at, x.at);
    }
    assert s == [s[0]] + t;
  }

  /** A slot strictly before every slot of an ascending index may be put in front of it. */
  lemma AscendingCons(x: Slot, s: seq<Slot>)
    requires Ascending(s)
    requires forall y :: y in s ==> Before(x.at, y.at)
    ensures Ascending([x] + s)
    ensures Times([x] + s) == {x.at} + Times(s)
    ensures x.at !in Times(s)
  {
    var r := [x] + s;
    forall i, j | 0 <= i < j < |r| ensures Before(r[i].at, r[j].at) {
      if i > 0 {
        assert r[i] == s[i - 1] && r[j] == s[j - 1];
      } else {
        assert r[j] in s;
      }
    }
    forall y | y in s ensures y.at != x.at {
      BeforeTotal(x.at, y.at);
    }
    assert r[1..] == s;
  }

  lemma MapUpdatesCommute(m: map<DateTime, Event>, a: DateTime, x: Event, b: DateTime, y: Event)
    requires a != b
    ensures m[a := x][b := y] == m[b := y][a := x]
  {
  }

  lemma MapUpdateRemoveCommute(m: map<DateTime, Event>, a: DateTime, x: Event, b: DateTime)
    requires a != b
    ensures (m - {b})[a := x] == m[a := x] - {b}
  {
  }

  /** `TreeMap.put(at, event)`: replaces the slot at that key or inserts a new one in order. */
  function Put(s: seq<Slot>, at: DateTime, event: Event): (r: seq<Slot>)
    requires Ascending(s)
    ensures Ascending(r)
    ensures forall x :: x in r ==> x in s || x == Slot(at, event)
  {
    if s == [] then [Slot(at, event)]
    else if s[0].at == at then
      AscendingTail(s);
      AscendingCons(Slot(at, event), s[1..]);
      [Slot(at, event)] + s[1..]
    else if Before(at, s[0].at) then
      AscendingTail(s);
      assert forall y :: y in s ==> Before(at, y.at) by {
        forall y | y in s ensures Before(at, y.at) {
          if y != s[0] {
            assert y in s[1..];
            BeforeTransitive(at, s[0].at, y.at);
          }
        }
      }
      AscendingCons(Slot(at, event), s);
      [Slot(at, event)] + s
    else
      BeforeTotal(at, s[0].at);
      AscendingTail(s);
      var rest := Put(s[1..], at, event);
      AscendingCons(s[0], rest);
      [s[0]] + rest
  }

  /** Put changes the map exactly at its key. */
  lemma {:induction false} PutContents(s: seq<Slot>, at: DateTime, event: Event)
    requires Ascending(s)
    ensures Contents(Put(s, at, event)) == Contents(s)[at := event]
  {
    if s == [] {
    } else if s[0].at == at {
      AscendingTail(s);
      var r := [Slot(at, event)] + s[1..];
      assert r[1..] == s[1..];
      assert Contents(r) == Contents(s[1..])[at := event];
    } else if Before(at, s[0].at) {
      AscendingTail(s);
      var r := [Slot(at, event)] + s;
      assert r[1..] == s;
      assert Contents(r) == Contents(s)[at := event];
    } else {
      AscendingTail(s);
      PutContents(s[1..], at, event);
      var rest := Put(s[1..], at, event);
      var r := [s[0]] + rest;
      assert r[1..] == rest;
      assert Contents(r) == Contents(rest)[s[0].at := s[0].event];
      assert Contents(rest) == Contents(s[1..])[at := event];
      assert Contents(s) == Contents(s[1..])[s[0].at := s[0].event];
      MapUpdatesCommute(Contents(s[1..]), at, event, s[0].at, s[0].event);
    }
  }

  /** Put adds a slot exactly when its key is new. */
  lemma {:induction false} PutLength(s: seq<Slot>, at: DateTime, event: Event)
    requires Ascending(s)
    ensures |Put(s, at, event)| == |s| + (if at in Times(s) then 0 else 1)
  {
    if s == [] {
    } else if s[0].at == at {
      AscendingTail(s);
    } else if Before(at, s[0].at) {
      AscendingTail(s);
      AscendingCons(Slot(at, event), s);
    } else {
      AscendingTail(s);
      PutLength(s[1..], at, event);
    }
  }

  /** `TreeMap.remove(at)`: drops the slot at that key, if any. */
  function Remove(s: seq<Slot>, at: DateTime): (r: seq<Slot>)
    requires Ascending(s)
    ensures Ascending(r)
    ensures forall x :: x in r ==> x in s && x.at != at
  {
    if s == [] then []
    else if s[0].at == at then
      AscendingTail(s);
      s[1..]
    else
      AscendingTail(s);
      var rest := Remove(s[1..], at);
      AscendingCons(s[0], rest);
      [s[0]] + rest
  }

  /** Remove deletes exactly its key from the map. */
  lemma {:induction false} RemoveContents(s: seq<Slot>, at: DateTime)
    requires Ascending(s)
    ensures Contents(Remove(s, at)) == Contents(s) - {at}
  {
    if s == [] {
    } else if s[0].at == at {
      AscendingTail(s);
      assert Contents(s) == Contents(s[1..])[at := s[0].event];
      assert at !in Contents(s[1..]);
    } else {
      AscendingTail(s);
      RemoveContents(s[1..], at);
      var rest := Remove(s[1..], at);
      var r := [s[0]] + rest;
      assert r[1..] == rest;
      assert Contents(r) == Contents(rest)[s[0].at := s[0].event];
      assert Contents(rest) == Contents(s[1..]) - {at};
      assert Contents(s) == Contents(s[1..])[s[0].at := s[0].event];
      MapUpdateRemoveCommute(Contents(s[1..]), s[0].at, s[0].event, at);
    }
  }

  /** Remove drops a slot exactly when its key is present. */
  lemma {:induction false} RemoveLength(s: seq<Slot>, at: DateTime)
    requires Ascending(s)
    ensures |Remove(s, at)| == |s| - (if at in Times(s) then 1 else 0)
  {
    if s != [] {
      AscendingTail(s);
      if s[0].at != at {
        RemoveLength(s[1..], at);
      }
    }
  }

  /** `TreeMap.values()`: the events in ascending order of their keys. */
  function Values(s: seq<Slot>): (r: seq<Event>)
    ensures |r| == |s| && forall i :: 0 <= i < |s| ==> r[i] == s[i].event
  {
    if s == [] then [] else [s[0].event] + Values(s[1..])
  }
}

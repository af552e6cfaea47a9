/** 2022 day 6: the device's datastream.  A start-of-packet marker is a run
    of 4 all-different characters and a start-of-message marker a run of 14;
    the answer is the number of characters read up to the end of the first
    such run. */
module TuningTrouble {
  import opened Common

  /** findDupeChars: the characters that occur at least twice. */
  function DupeChars(s: string): (r: set<char>)
    ensures r <= set c | c in s
  {
    set c | c in s && Count(s, c) >= 2
  }

  predicate Distinct(s: string) {
    forall i, j :: 0 <= i < j < |s| ==> s[i] != s[j]
  }

  /** A character is counted twice exactly when two positions hold it. */
  lemma {:induction false} CountTwice(s: string, c: char)
    ensures Count(s, c) >= 2 <==> exists i, j :: 0 <= i < j < |s| && s[i] == c && s[j] == c
  {
    if s != [] {
      var n := |s| - 1;
      var p := s[..n];
      CountTwice(p, c);
      if s[n] == c {
        CountZero(p, c);
        if Count(s, c) >= 2 {
          var i :| 0 <= i < |p| && p[i] == c;
          assert s[i] == c && s[n] == c;
        }
        if exists i, j :: 0 <= i < j < |s| && s[i] == c && s[j] == c {
          var i, j :| 0 <= i < j < |s| && s[i] == c && s[j] == c;
          assert p[i] == c;
        }
      } else {
        if exists i, j :: 0 <= i < j < |s| && s[i] == c && s[j] == c {
          var i, j :| 0 <= i < j < |s| && s[i] == c && s[j] == c;
          assert p[i] == c && p[j] == c;
        }
      }
    }
  }

  /** No character is repeated exactly when all positions differ. */
  lemma NoDupesIsDistinct(s: string)
    ensures DupeChars(s) == {} <==> Distinct(s)
  {
    if !Distinct(s) {
      var i, j :| 0 <= i < j < |s| && s[i] == s[j];
      CountTwice(s, s[i]);
      assert s[i] in DupeChars(s);
    }
    if DupeChars(s) != {} {
      var c :| c in DupeChars(s);
      CountTwice(s, c);
    }
  }

  /** `data[key: key + w]`: the window of width `w`, cut short at the end. */
  function Window(data: string, key: nat, w: nat): (r: string)
    requires key <= |data|
    ensures r == data[key..if key + w <= |data| then key + w else |data|]
  {
    Slice(data, key, key + w)
  }

  /** A marker at `key`: its window repeats no character; with `full`, it
      must also lie entirely inside the data. */
  predicate MarkerAt(data: string, key: nat, w: nat, full: bool) {
    key < |data| && (full ==> key + w <= |data|) && Distinct(Window(data, key, w))
  }

  /** `report` is what a scan printing `key + w` for the first marker gives:
      nothing when there is no marker. */
  predicate FirstMarker(data: string, w: nat, full: bool, report: Option<nat>) {
    match report
    case Some(m) =>
      w <= m && MarkerAt(data, m - w, w, full) && NoMarkerBelow(data, w, full, m - w)
    case None =>
      NoMarkerBelow(data, w, full, |data|)
  }

  /** The first marker among the keys below `n`, as the scan reports it. */
  function ScanUpTo(data: string, w: nat, full: bool, n: nat): Option<nat>
    requires n <= |data|
  {
    if n == 0 then None
    else
      var earlier := ScanUpTo(data, w, full, n - 1);
      if earlier.Some? then earlier
      else if MarkerAt(data, n - 1, w, full) then Some(n - 1 + w)
      else None
  }

  lemma ScanUpToMeaning(data: string, w: nat, full: bool, n: nat)
    requires n <= |data|
    ensures match ScanUpTo(data, w, full, n)
      case Some(m) => w <= m < n + w && FirstMarker(data, w, full, Some(m))
      case None => NoMarkerBelow(data, w, full, n)
  {
    ScanUpToNone(data, w, full, n);
    ScanUpToSome(data, w, full, n);
  }

  /** No key below `n` starts a marker. */
  predicate NoMarkerBelow(data: string, w: nat, full: bool, n: nat) {
    forall k :: 0 <= k < n ==> !MarkerAt(data, k, w, full)
  }

  /** The scan finds nothing exactly when no key below `n` is a marker. */
  lemma {:induction false} ScanUpToNone(data: string, w: nat, full: bool, n: nat)
    requires n <= |data|
    ensures ScanUpTo(data, w, full, n).None? <==> NoMarkerBelow(data, w, full, n)
  {
    if n > 0 {
      var q := n - 1;
      ScanUpToNone(data, w, full, q);
      NoMarkerBelowStep(data, w, full, n);
    }
  }

  lemma NoMarkerBelowStep(data: string, w: nat, full: bool, n: nat)
    requires 0 < n
    ensures NoMarkerBelow(data, w, full, n) <==> NoMarkerBelow(data, w, full, n - 1) && !MarkerAt(data, n - 1, w, full)
  {
  }

  /** What the scan finds is a marker with none before it. */
  lemma {:induction false} ScanUpToSome(data: string, w: nat, full: bool, n: nat)
    requires n <= |data|
    ensures ScanUpTo(data, w, full, n).Some? ==>
      var m := ScanUpTo(data, w, full, n).value;
      w <= m < n + w && MarkerAt(data, m - w, w, full) && NoMarkerBelow(data, w, full, m - w)
  {
    if n > 0 {
      var q := n - 1;
      if ScanUpTo(data, w, full, q).Some? {
        assert ScanUpTo(data, w, full, n) == ScanUpTo(data, w, full, q);
        ScanUpToSome(data, w, full, q);
      } else {
        ScanUpToNone(data, w, full, q);
        NewMarker(data, w, full, n);
      }
    }
  }

  lemma ScanUpToUnfold(data: string, w: nat, full: bool, n: nat)
    requires 0 < n <= |data| && ScanUpTo(data, w, full, n - 1).None?
    ensures ScanUpTo(data, w, full, n) == if MarkerAt(data, n - 1, w, full) then Some(n - 1 + w) else None
  {
  }

  /** Nothing found below `n - 1`: the scan up to `n` finds `n - 1` or nothing. */
  lemma NewMarker(data: string, w: nat, full: bool, n: nat)
    requires 0 < n <= |data| && ScanUpTo(data, w, full, n - 1).None? && NoMarkerBelow(data, w, full, n - 1)
    ensures ScanUpTo(data, w, full, n).Some? ==>
      var m := ScanUpTo(data, w, full, n).value;
      w <= m < n + w && MarkerAt(data, m - w, w, full) && NoMarkerBelow(data, w, full, m - w)
  {
    var q := n - 1;
    ScanUpToUnfold(data, w, full, n);
    if MarkerAt(data, q, w, full) {
      var m := q + w;
      assert m - w == q;
    }
  }

  /** The scan of the whole data finds the first marker. */
  lemma ScanFindsFirst(data: string, w: nat, full: bool)
    ensures FirstMarker(data, w, full, ScanUpTo(data, w, full, |data|))
  {
    ScanUpToMeaning(data, w, full, |data|);
  }

  /** The test at one key: `len(findDupeChars(window)) == 0`, and for a
      complete scan also that the window fits. */
  lemma HitAt(data: string, key: nat, w: nat, full: bool)
    requires key < |data|
    ensures MarkerAt(data, key, w, full) <==>
      (full ==> key + w <= |data|) && |DupeChars(Window(data, key, w))| == 0
  {
    NoDupesIsDistinct(Window(data, key, w));
  }

  /** The scan of main: each key tests the windows of width 4 and 14, and
      each flag is cleared at its first hit, so each marker is reported
      once.  The tail windows are the truncated slices. */
  method Markers(data: string) returns (packet: Option<nat>, message: Option<nat>)
    ensures FirstMarker(data, 4, false, packet)
    ensures FirstMarker(data, 14, false, message)
  {
    var checkKey, nextKey := true, true;
    packet, message := None, None;
    for key := 0 to |data|
      invariant checkKey <==> packet.None?
      invariant nextKey <==> message.None?
      invariant packet == ScanUpTo(data, 4, false, key)
      invariant message == ScanUpTo(data, 14, false, key)
    {
      var check, next := Window(data, key, 4), Window(data, key, 14);
      HitAt(data, key, 4, false);
      HitAt(data, key, 14, false);
      if |DupeChars(check)| == 0 && checkKey {
        packet := Some(key + 4);
        checkKey := false;
      }
      if |DupeChars(next)| == 0 && nextKey {
        message := Some(key + 14);
        nextKey := false;
      }
    }
    ScanFindsFirst(data, 4, false);
    ScanFindsFirst(data, 14, false);
  }

  /** The scan restricted to windows that lie inside the data. */
  method CompleteMarkers(data: string) returns (packet: Option<nat>, message: Option<nat>)
    ensures FirstMarker(data, 4, true, packet)
    ensures FirstMarker(data, 14, true, message)
  {
    var checkKey, nextKey := true, true;
    packet, message := None, None;
    for key := 0 to |data|
      invariant checkKey <==> packet.None?
      invariant nextKey <==> message.None?
      invariant packet == ScanUpTo(data, 4, true, key)
      invariant message == ScanUpTo(data, 14, true, key)
    {
      var check, next := Window(data, key, 4), Window(data, key, 14);
      HitAt(data, key, 4, true);
      HitAt(data, key, 14, true);
      if key + 4 <= |data| && |DupeChars(check)| == 0 && checkKey {
        packet := Some(key + 4);
        checkKey := false;
      }
      if key + 14 <= |data| && |DupeChars(next)| == 0 && nextKey {
        message := Some(key + 14);
        nextKey := false;
      }
    }
    ScanFindsFirst(data, 4, true);
    ScanFindsFirst(data, 14, true);
  }

  /** A complete marker ends inside the data, after exactly `w` different
      characters. */
  lemma CompleteMarkerFits(data: string, w: nat, m: nat)
    requires FirstMarker(data, w, true, Some(m))
    ensures m <= |data| && |Window(data, m - w, w)| == w
  {
  }

  /** The scan as written and the complete scan agree whenever the first
      reported marker ends inside the data. */
  lemma AgreeInside(data: string, w: nat, m: nat)
    requires FirstMarker(data, w, false, Some(m)) && m <= |data|
    ensures FirstMarker(data, w, true, Some(m))
  {
    assert MarkerAt(data, m - w, w, true);
    forall k | 0 <= k < m - w ensures !MarkerAt(data, k, w, true) {
      assert !MarkerAt(data, k, w, false);
    }
  }

  /** "aaab" has no 4 different characters, yet its truncated window "ab"
      at key 2 is reported as a packet marker after character 6 of 4. */
  lemma TruncatedTailReported()
    ensures FirstMarker("aaab", 4, false, Some(6))
    ensures FirstMarker("aaab", 4, true, None)
  {
    var data := "aaab";
    assert Window(data, 0, 4)[0] == Window(data, 0, 4)[1];
    assert Window(data, 1, 4)[0] == Window(data, 1, 4)[1];
    assert Window(data, 2, 4) == "ab";
  }

  /** Two equal characters inside a window rule out a marker there. */
  lemma RepeatInWindow(data: string, key: nat, w: nat, i: nat, j: nat)
    requires key + w <= |data| && i < j < w && data[key + i] == data[key + j]
    ensures !MarkerAt(data, key, w, false)
  {
    assert Window(data, key, w)[i] == Window(data, key, w)[j];
  }

  /** Four pairwise different characters make a packet marker. */
  lemma FourDifferent(data: string, key: nat)
    requires key + 4 <= |data|
    requires data[key] != data[key + 1] && data[key] != data[key + 2] && data[key] != data[key + 3]
    requires data[key + 1] != data[key + 2] && data[key + 1] != data[key + 3] && data[key + 2] != data[key + 3]
    ensures MarkerAt(data, key, 4, true)
  {
    var win := Window(data, key, 4);
    forall i, j | 0 <= i < j < |win| ensures win[i] != win[j] {
      assert win[i] == data[key + i] && win[j] == data[key + j];
    }
  }

  /** The first example, mjqjpqmgbljsphdztnvjfqwrcgsmlb: any datastream
      opening "mjqjpqm" has its packet marker "jpqm" after character 7. */
  lemma FirstExample(data: string)
    requires |data| >= 7
    requires data[0] == 'm' && data[1] == 'j' && data[2] == 'q' && data[3] == 'j'
    requires data[4] == 'p' && data[5] == 'q' && data[6] == 'm'
    ensures FirstMarker(data, 4, false, Some(7))
  {
    RepeatInWindow(data, 0, 4, 1, 3);
    RepeatInWindow(data, 1, 4, 0, 2);
    RepeatInWindow(data, 2, 4, 0, 3);
    FourDifferent(data, 3);
  }

  /** The second example, bvwbjplbgvbhsrlpgdmjqwftvncz: after character 5. */
  lemma SecondExample(data: string)
    requires |data| >= 5
    requires data[0] == 'b' && data[1] == 'v' && data[2] == 'w' && data[3] == 'b' && data[4] == 'j'
    ensures FirstMarker(data, 4, false, Some(5))
  {
    RepeatInWindow(data, 0, 4, 0, 3);
    FourDifferent(data, 1);
  }

  /** The third example, nppdvjthqldpwncqszvftbrmjlhg: after character 6. */
  lemma ThirdExample(data: string)
    requires |data| >= 6
    requires data[0] == 'n' && data[1] == 'p' && data[2] == 'p' && data[3] == 'd'
    requires data[4] == 'v' && data[5] == 'j'
    ensures FirstMarker(data, 4, false, Some(6))
  {
    RepeatInWindow(data, 0, 4, 1, 2);
    RepeatInWindow(data, 1, 4, 0, 1);
    FourDifferent(data, 2);
  }
}

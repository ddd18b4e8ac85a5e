/**
 * The record scan shared by all three scripts: one forward pass that keeps the
 * current section (the most recent header) and turns every record with a food
 * name into a (section, name) entry; the east/west scan and the Jasmine
 * `fetch_flat_items` differ only in what they do with the entries.
 */
module RecordScan {
  import opened Wrappers
  import opened MenuRecords

  /** A food record resolved to its section. */
  datatype Entry = Entry(section: string, name: string)

  /** The loop's state: `current_section` and the entries produced so far. */
  datatype ScanState = ScanState(current: Option<string>, entries: seq<Entry>)

  /**
   * One iteration: a header only updates `current_section`; an inert record is
   * skipped; a food record yields one entry, its section hint replaced by the
   * current section when the hint is the literal "Other".
   */
  function ScanStep(st: ScanState, k: RecordKind): ScanState {
    match k
    case HeaderRecord(t) => ScanState(Some(t), st.entries)
    case InertRecord => st
    case FoodRecord(n, h) => ScanState(st.current, st.entries + [Entry(InContext(h, st.current), n)])
  }

  /** The state after the loop has visited all of `ks`, starting with no current section. */
  function ScanKinds(ks: seq<RecordKind>): ScanState {
    if ks == [] then ScanState(None, [])
    else ScanStep(ScanKinds(ks[..|ks| - 1]), ks[|ks| - 1])
  }

  /** The classification of every record. */
  function KindsOf(rs: seq<MenuRecord>): (ks: seq<RecordKind>)
    ensures |ks| == |rs| && forall i :: 0 <= i < |rs| ==> ks[i] == Classify(rs[i])
  {
    seq(|rs|, i requires 0 <= i < |rs| => Classify(rs[i]))
  }

  /** The loop over a day's records. */
  function ScanAll(rs: seq<MenuRecord>): ScanState {
    ScanKinds(KindsOf(rs))
  }

  /** One more record is one more step. */
  lemma ScanAllSnoc(rs: seq<MenuRecord>, i: int)
    requires 0 <= i < |rs|
    ensures ScanAll(rs[..i + 1]) == ScanStep(ScanAll(rs[..i]), Classify(rs[i]))
  {
    assert KindsOf(rs[..i + 1])[..i] == KindsOf(rs[..i]);
  }

  /** The names of the entries of section `s`, in order. */
  function NamesIn(es: seq<Entry>, s: string): seq<string> {
    if es == [] then []
    else NamesIn(es[..|es| - 1], s) + (if es[|es| - 1].section == s then [es[|es| - 1].name] else [])
  }

  /** The sections of the entries, in order. */
  function SectionsOf(es: seq<Entry>): (ss: seq<string>)
    ensures |ss| == |es| && forall i :: 0 <= i < |es| ==> ss[i] == es[i].section
  {
    if es == [] then [] else SectionsOf(es[..|es| - 1]) + [es[|es| - 1].section]
  }

  /**
   * The context after a scan is the text of the last header, and there is none
   * when there is no header.
   */
  lemma {:induction false} ContextIsLastHeader(ks: seq<RecordKind>)
    ensures ScanKinds(ks).current.None? <==> forall i :: 0 <= i < |ks| ==> !ks[i].HeaderRecord?
    ensures ScanKinds(ks).current.Some? ==>
      exists i :: 0 <= i < |ks| && ks[i].HeaderRecord? && ScanKinds(ks).current == Some(ks[i].text)
        && forall j :: i < j < |ks| ==> !ks[j].HeaderRecord?
  {
    if ks != [] {
      var n := |ks| - 1;
      var p := ks[..n];
      ContextIsLastHeader(p);
      assert forall i :: 0 <= i < n ==> ks[i] == p[i];
      if !ks[n].HeaderRecord? && ScanKinds(p).current.Some? {
        var i :| 0 <= i < n && p[i].HeaderRecord? && ScanKinds(p).current == Some(p[i].text)
          && forall j :: i < j < n ==> !p[j].HeaderRecord?;
        assert ks[i] == p[i];
      }
    }
  }

  /** Scanning more records never changes the entries already produced: nothing is re-sectioned afterwards. */
  lemma {:induction false} EntriesOnlyGrow(ks: seq<RecordKind>, more: seq<RecordKind>)
    ensures |ScanKinds(ks).entries| <= |ScanKinds(ks + more).entries|
    ensures ScanKinds(ks + more).entries[..|ScanKinds(ks).entries|] == ScanKinds(ks).entries
  {
    if more == [] {
      assert ks + more == ks;
    } else {
      var p := more[..|more| - 1];
      EntriesOnlyGrow(ks, p);
      assert (ks + more)[..|ks + more| - 1] == ks + p;
    }
  }

  /** There is one entry per food record, and headers and inert records add none. */
  lemma {:induction false} EntryCount(ks: seq<RecordKind>)
    ensures |ScanKinds(ks).entries| == |set i | 0 <= i < |ks| && ks[i].FoodRecord?|
  {
    if ks != [] {
      var n := |ks| - 1;
      var p := ks[..n];
      EntryCount(p);
      var sp := set i | 0 <= i < n && p[i].FoodRecord?;
      var s := set i | 0 <= i < |ks| && ks[i].FoodRecord?;
      assert forall i :: 0 <= i < n ==> ks[i] == p[i];
      if ks[n].FoodRecord? {
        assert s == sp + {n};
      } else {
        assert s == sp;
      }
    }
  }

  /** Entries of well-formed kinds have non-empty names and sections. */
  lemma {:induction false} EntriesNonEmpty(ks: seq<RecordKind>)
    requires forall i :: 0 <= i < |ks| ==> WellFormedKind(ks[i])
    ensures forall e :: e in ScanKinds(ks).entries ==> e.name != "" && e.section != ""
    ensures ScanKinds(ks).current.Some? ==> ScanKinds(ks).current.value != ""
  {
    if ks != [] {
      EntriesNonEmpty(ks[..|ks| - 1]);
    }
  }

  /** No entry of a scan over records has an empty name or section. */
  lemma ScanAllEntriesNonEmpty(rs: seq<MenuRecord>)
    ensures forall e :: e in ScanAll(rs).entries ==> e.name != "" && e.section != ""
  {
    var ks := KindsOf(rs);
    forall i | 0 <= i < |ks| ensures WellFormedKind(ks[i]) {
      ClassifySpec(rs[i]);
    }
    EntriesNonEmpty(ks);
  }

  /** The entries' names are exactly the names of the food records, and each entry came from one. */
  lemma {:induction false} EntryNames(ks: seq<RecordKind>, x: string)
    ensures (exists e :: e in ScanKinds(ks).entries && e.name == x) <==>
      exists i :: 0 <= i < |ks| && ks[i].FoodRecord? && ks[i].name == x
  {
    if ks != [] {
      var n := |ks| - 1;
      var p := ks[..n];
      EntryNames(p, x);
      var es := ScanKinds(p).entries;
      if e :| e in ScanKinds(ks).entries && e.name == x {
        if e !in es {
          assert ks[n].FoodRecord? && ks[n].name == x;
        } else {
          var i :| 0 <= i < |p| && p[i].FoodRecord? && p[i].name == x;
          assert ks[i] == p[i];
        }
      }
      if i :| 0 <= i < |ks| && ks[i].FoodRecord? && ks[i].name == x {
        if i == n {
          var e := ScanKinds(ks).entries[|ScanKinds(ks).entries| - 1];
          assert e in ScanKinds(ks).entries && e.name == x;
        } else {
          assert p[i] == ks[i];
          var e :| e in es && e.name == x;
          assert e in ScanKinds(ks).entries;
        }
      }
    }
  }
}

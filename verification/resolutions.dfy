/** The pure core of `get_formats`: collapsing the engine's format list into
    one `format_id` per `"<height>p"` label (first occurrence wins), the
    numeric sort of the labels, and the audio-availability flag. */
module Resolutions {
  import opened Wrappers
  import opened Decimal
  import opened Api

  /** The `vcodec` the engine reports for an audio-only stream. */
  const AudioOnly := "none"

  /** The loop's filter: a stream whose `vcodec` is not "none" (an absent
      `vcodec` counts as video) and whose `height` is known. */
  predicate Qualifies(f: Fmt) {
    f.vcodec != Some(AudioOnly) && f.height.Some?
  }

  /** `f"{height}p"` */
  function Label(height: nat): string {
    NatToString(height) + "p"
  }

  /** The sort key `int(label.replace('p', ''))`; `None` is the `ValueError`. */
  function SortKey(key: string): Option<nat> {
    ParseNat(RemoveChar(key, 'p'))
  }

  /** The sort key of a label gives back the height it was built from. */
  lemma LabelRoundTrip(height: nat)
    ensures SortKey(Label(height)) == Some(height)
  {
    var digits := NatToString(height);
    assert 'p' !in digits;
    var rendered := Label(height);
    assert rendered[..|rendered| - 1] == digits && rendered[|rendered| - 1] == 'p';
    assert RemoveChar(rendered, 'p') == RemoveChar(digits, 'p');
    RemoveAbsentChar(digits, 'p');
    ParseNatToString(height);
  }

  /** Distinct heights give distinct labels. */
  lemma LabelInjective(a: nat, b: nat)
    ensures Label(a) == Label(b) <==> a == b
  {
    if Label(a) == Label(b) {
      LabelRoundTrip(a);
      LabelRoundTrip(b);
    }
  }

  // ---------------------------------------------------------------------
  // The intermediate dict, as an insertion-ordered list of key/value pairs

  function Keys(d: seq<Entry>): set<string> {
    set e | e in d :: e.key
  }

  predicate DistinctKeys(d: seq<Entry>) {
    forall i, j | 0 <= i < j < |d| :: d[i].key != d[j].key
  }

  /** `d.get(k)` */
  function Lookup(d: seq<Entry>, k: string): Option<string> {
    if d == [] then None
    else if d[0].key == k then Some(d[0].value)
    else Lookup(d[1..], k)
  }

  lemma KeysCons(e: Entry, d: seq<Entry>)
    ensures Keys([e] + d) == {e.key} + Keys(d)
  {
    assert forall x | x in [e] + d :: x == e || x in d;
  }

  /** `d` with every pair whose key is `k` dropped. */
  function Without(d: seq<Entry>, k: string): (r: seq<Entry>)
    ensures Keys(r) == Keys(d) - {k}
    ensures forall e | e in r :: e in d
    ensures |r| <= |d|
  {
    if d == [] then []
    else
      var w := Without(d[1..], k);
      assert d == [d[0]] + d[1..];
      KeysCons(d[0], d[1..]);
      if d[0].key == k then w
      else
        KeysCons(d[0], w);
        [d[0]] + w
  }

  lemma {:induction false} WithoutSnoc(d: seq<Entry>, e: Entry, k: string)
    ensures Without(d + [e], k) == Without(d, k) + (if e.key == k then [] else [e])
  {
    if d == [] {
      assert [] + [e] == [e];
      assert [e][1..] == [];
    } else {
      assert (d + [e])[1..] == d[1..] + [e];
      WithoutSnoc(d[1..], e, k);
    }
  }

  lemma DistinctCons(e: Entry, d: seq<Entry>)
    ensures DistinctKeys([e] + d) <==> e.key !in Keys(d) && DistinctKeys(d)
  {
    var ed := [e] + d;
    if e.key !in Keys(d) && DistinctKeys(d) {
      forall i, j | 0 <= i < j < |ed| ensures ed[i].key != ed[j].key {
        if i == 0 {
          assert ed[j] == d[j - 1];
          assert ed[j] in d;
        } else {
          assert ed[i] == d[i - 1] && ed[j] == d[j - 1];
        }
      }
    }
    if DistinctKeys(ed) {
      forall x | x in d ensures x.key != e.key {
        var j :| 0 <= j < |d| && d[j] == x;
        assert ed[0] == e && ed[j + 1] == x;
      }
      forall i, j | 0 <= i < j < |d| ensures d[i].key != d[j].key {
        assert ed[i + 1] == d[i] && ed[j + 1] == d[j];
      }
    }
  }

  lemma {:induction false} WithoutDistinct(d: seq<Entry>, k: string)
    requires DistinctKeys(d)
    ensures DistinctKeys(Without(d, k))
  {
    if d != [] {
      assert d == [d[0]] + d[1..];
      DistinctCons(d[0], d[1..]);
      WithoutDistinct(d[1..], k);
      if d[0].key != k {
        DistinctCons(d[0], Without(d[1..], k));
      }
    }
  }

  lemma {:induction false} LookupWithout(d: seq<Entry>, k: string, m: string)
    ensures Lookup(Without(d, k), m) == if m == k then None else Lookup(d, m)
  {
    if d != [] {
      var w := Without(d[1..], k);
      LookupWithout(d[1..], k, m);
      if d[0].key != k {
        assert Without(d, k) == [d[0]] + w;
        assert ([d[0]] + w)[1..] == w;
      } else {
        assert Without(d, k) == w;
      }
    }
  }

  lemma {:induction false} LookupAbsent(d: seq<Entry>, k: string)
    requires k !in Keys(d)
    ensures Lookup(d, k) == None
  {
    if d != [] {
      assert d[0] in d;
      assert forall e | e in d[1..] :: e in d;
      LookupAbsent(d[1..], k);
    }
  }

  lemma {:induction false} LookupDistinct(d: seq<Entry>, i: nat)
    requires DistinctKeys(d) && i < |d|
    ensures Lookup(d, d[i].key) == Some(d[i].value)
  {
    if i > 0 {
      assert d == [d[0]] + d[1..];
      DistinctCons(d[0], d[1..]);
      assert d[1..][i - 1] == d[i];
      LookupDistinct(d[1..], i - 1);
    }
  }

  // ---------------------------------------------------------------------
  // First wins

  /** The reference definition of the dict the loop builds: the first
      qualifying descriptor claims its label, and every later descriptor
      with the same label is discarded. */
  function FirstWins(fs: seq<Fmt>): seq<Entry> {
    if fs == [] then []
    else if Qualifies(fs[0]) then
      var k := Label(fs[0].height.value);
      [Entry(k, fs[0].formatId)] + Without(FirstWins(fs[1..]), k)
    else FirstWins(fs[1..])
  }

  /** `fs[i]` qualifies and no earlier qualifying descriptor has its height. */
  predicate FirstOfHeight(fs: seq<Fmt>, i: nat)
    requires i < |fs|
  {
    Qualifies(fs[i]) && forall j | 0 <= j < i :: !(Qualifies(fs[j]) && fs[j].height == fs[i].height)
  }

  /** One more descriptor at the end changes the dict exactly as one loop
      iteration does: a new label is appended, a known one is left alone. */
  lemma {:induction false} FirstWinsSnoc(fs: seq<Fmt>, f: Fmt)
    ensures FirstWins(fs + [f]) ==
      if Qualifies(f) && Label(f.height.value) !in Keys(FirstWins(fs))
      then FirstWins(fs) + [Entry(Label(f.height.value), f.formatId)]
      else FirstWins(fs)
  {
    if fs == [] {
      assert [] + [f] == [f];
      assert [f][1..] == [];
    } else {
      var rest := fs[1..];
      assert (fs + [f])[0] == fs[0] && (fs + [f])[1..] == rest + [f];
      FirstWinsSnoc(rest, f);
      var w := FirstWins(rest);
      if Qualifies(fs[0]) && Qualifies(f) {
        var kg := Label(fs[0].height.value);
        var eg := Entry(kg, fs[0].formatId);
        var ef := Entry(Label(f.height.value), f.formatId);
        KeysCons(eg, Without(w, kg));
        WithoutSnoc(w, ef, kg);
      }
    }
  }

  /** The loop of `get_formats`: walk the formats in order and record each
      qualifying descriptor's `format_id` under its label unless the label
      is already present. */
  method CollectResolutions(formats: seq<Fmt>) returns (resolutions: seq<Entry>)
    ensures resolutions == FirstWins(formats)
  {
    resolutions := [];
    for i := 0 to |formats|
      invariant resolutions == FirstWins(formats[..i])
    {
      var f := formats[i];
      assert formats[..i + 1] == formats[..i] + [f];
      FirstWinsSnoc(formats[..i], f);
      if f.vcodec != Some(AudioOnly) && f.height.Some? {
        var key := Label(f.height.value);
        if key !in Keys(resolutions) {
          resolutions := resolutions + [Entry(key, f.formatId)];
        }
      }
    }
    assert formats[..|formats|] == formats;
  }

  /** The labels in the dict are exactly the labels of the qualifying
      descriptors: audio-only and height-less streams never contribute. */
  lemma {:induction false} FirstWinsKeys(fs: seq<Fmt>)
    ensures Keys(FirstWins(fs)) == set i | 0 <= i < |fs| && Qualifies(fs[i]) :: Label(fs[i].height.value)
  {
    if fs != [] {
      var rest := fs[1..];
      FirstWinsKeys(rest);
      var s := set i | 0 <= i < |fs| && Qualifies(fs[i]) :: Label(fs[i].height.value);
      var t := set i | 0 <= i < |rest| && Qualifies(rest[i]) :: Label(rest[i].height.value);
      var head: set<string> := if Qualifies(fs[0]) then {Label(fs[0].height.value)} else {};
      assert s == head + t by {
        forall l | l in s ensures l in head + t {
          var i :| 0 <= i < |fs| && Qualifies(fs[i]) && l == Label(fs[i].height.value);
          if i > 0 {
            assert rest[i - 1] == fs[i];
          }
        }
        forall l | l in t ensures l in s {
          var i :| 0 <= i < |rest| && Qualifies(rest[i]) && l == Label(rest[i].height.value);
          assert fs[i + 1] == rest[i];
        }
      }
      if Qualifies(fs[0]) {
        var k := Label(fs[0].height.value);
        KeysCons(Entry(k, fs[0].formatId), Without(FirstWins(rest), k));
      }
    }
  }

  /** Labels are pairwise distinct, and the dict is no longer than the input. */
  lemma {:induction false} FirstWinsDistinct(fs: seq<Fmt>)
    ensures DistinctKeys(FirstWins(fs))
    ensures |FirstWins(fs)| <= |fs|
  {
    if fs != [] {
      FirstWinsDistinct(fs[1..]);
      if Qualifies(fs[0]) {
        var k := Label(fs[0].height.value);
        var w := FirstWins(fs[1..]);
        WithoutDistinct(w, k);
        DistinctCons(Entry(k, fs[0].formatId), Without(w, k));
      }
    }
  }

  /** First wins: the label of a height maps to the `format_id` of the first
      qualifying descriptor of that height, whatever follows it. */
  lemma {:induction false} FirstWinsLookup(fs: seq<Fmt>, i: nat)
    requires i < |fs| && FirstOfHeight(fs, i)
    ensures Lookup(FirstWins(fs), Label(fs[i].height.value)) == Some(fs[i].formatId)
  {
    if i > 0 {
      var rest := fs[1..];
      assert rest[i - 1] == fs[i];
      assert FirstOfHeight(rest, i - 1) by {
        forall j | 0 <= j < i - 1 ensures !(Qualifies(rest[j]) && rest[j].height == rest[i - 1].height) {
          assert rest[j] == fs[j + 1];
        }
      }
      FirstWinsLookup(rest, i - 1);
      if Qualifies(fs[0]) {
        var k := Label(fs[0].height.value);
        LabelInjective(fs[0].height.value, fs[i].height.value);
        LookupWithout(FirstWins(rest), k, Label(fs[i].height.value));
      }
    }
  }

  /** A height no qualifying descriptor has gets no label. */
  lemma FirstWinsAbsent(fs: seq<Fmt>, h: nat)
    requires forall j | 0 <= j < |fs| :: !(Qualifies(fs[j]) && fs[j].height == Some(h))
    ensures Lookup(FirstWins(fs), Label(h)) == None
  {
    FirstWinsKeys(fs);
    if Label(h) in Keys(FirstWins(fs)) {
      var i :| 0 <= i < |fs| && Qualifies(fs[i]) && Label(h) == Label(fs[i].height.value);
      LabelInjective(h, fs[i].height.value);
    }
    LookupAbsent(FirstWins(fs), Label(h));
  }

  /** Every qualifying descriptor has a first descriptor of its height at or
      before it. */
  lemma {:induction false} ExistsFirstOfHeight(fs: seq<Fmt>, i: nat)
    requires i < |fs| && Qualifies(fs[i])
    ensures exists j | 0 <= j <= i :: FirstOfHeight(fs, j) && fs[j].height == fs[i].height
  {
    if !FirstOfHeight(fs, i) {
      var j :| 0 <= j < i && Qualifies(fs[j]) && fs[j].height == fs[i].height;
      ExistsFirstOfHeight(fs, j);
    }
  }

  /** Every pair in the dict is the label and `format_id` of the first
      qualifying descriptor of some height. */
  lemma FirstWinsEntries(fs: seq<Fmt>, k: nat)
    requires k < |FirstWins(fs)|
    ensures exists i | 0 <= i < |fs| ::
      FirstOfHeight(fs, i) && FirstWins(fs)[k] == Entry(Label(fs[i].height.value), fs[i].formatId)
  {
    var d := FirstWins(fs);
    FirstWinsKeys(fs);
    FirstWinsDistinct(fs);
    assert d[k].key in Keys(d);
    var i :| 0 <= i < |fs| && Qualifies(fs[i]) && d[k].key == Label(fs[i].height.value);
    ExistsFirstOfHeight(fs, i);
    var j :| 0 <= j <= i && FirstOfHeight(fs, j) && fs[j].height == fs[i].height;
    FirstWinsLookup(fs, j);
    LookupDistinct(d, k);
  }

  // ---------------------------------------------------------------------
  // Audio flag

  /** `any(f.get('vcodec') == 'none' for f in formats)` */
  function AnyAudioOnly(fs: seq<Fmt>): bool {
    if fs == [] then false else fs[0].vcodec == Some(AudioOnly) || AnyAudioOnly(fs[1..])
  }

  /** The flag is set iff some descriptor is audio-only; a descriptor without
      a `vcodec` does not set it. */
  lemma {:induction false} AnyAudioOnlyIff(fs: seq<Fmt>)
    ensures AnyAudioOnly(fs) <==> exists i | 0 <= i < |fs| :: fs[i].vcodec == Some(AudioOnly)
  {
    if fs != [] {
      AnyAudioOnlyIff(fs[1..]);
      if exists i | 0 <= i < |fs| :: fs[i].vcodec == Some(AudioOnly) {
        var i :| 0 <= i < |fs| && fs[i].vcodec == Some(AudioOnly);
        if i > 0 {
          assert fs[1..][i - 1] == fs[i];
        }
      }
      if exists i | 0 <= i < |fs[1..]| :: fs[1..][i].vcodec == Some(AudioOnly) {
        var i :| 0 <= i < |fs[1..]| && fs[1..][i].vcodec == Some(AudioOnly);
        assert fs[i + 1] == fs[1..][i];
      }
    }
  }

  // ---------------------------------------------------------------------
  // Sorting by the numeric sort key

  /** Every label has a sort key (Python would raise otherwise). */
  predicate Keyed(d: seq<Entry>) {
    forall i | 0 <= i < |d| :: SortKey(d[i].key).Some?
  }

  /** The sort key of a pair; only consulted on pairs whose key parses
      (`SortByKey` requires it of its whole input). */
  function KeyOf(e: Entry): nat {
    SortKey(e.key).GetOr(0)
  }

  predicate StrictlyAscending<T>(d: seq<T>, key: T -> nat) {
    forall i, j | 0 <= i < j < |d| :: key(d[i]) < key(d[j])
  }

  /** Insert `e` before the first element whose key is not smaller. */
  function Insert<T>(e: T, s: seq<T>, key: T -> nat): (r: seq<T>)
    ensures multiset(r) == multiset(s) + multiset{e}
  {
    if s == [] || key(e) <= key(s[0]) then [e] + s
    else
      assert s == [s[0]] + s[1..];
      [s[0]] + Insert(e, s[1..], key)
  }

  /** `sorted(d, key=key)`, as an insertion sort (stable, as Python's is). */
  function SortBy<T>(d: seq<T>, key: T -> nat): (r: seq<T>)
    ensures multiset(r) == multiset(d)
  {
    if d == [] then []
    else
      assert d == [d[0]] + d[1..];
      Insert(d[0], SortBy(d[1..], key), key)
  }

  /** `sorted(resolutions.items(), key=lambda x: int(x[0].replace('p', '')))` */
  function SortByKey(d: seq<Entry>): (r: seq<Entry>)
    requires Keyed(d)
    ensures multiset(r) == multiset(d)
  {
    SortBy(d, KeyOf)
  }

  lemma ConsAscending<T>(x: T, s: seq<T>, key: T -> nat)
    requires StrictlyAscending(s, key)
    requires forall j | 0 <= j < |s| :: key(x) < key(s[j])
    ensures StrictlyAscending([x] + s, key)
  {
    var r := [x] + s;
    forall i, j | 0 <= i < j < |r| ensures key(r[i]) < key(r[j]) {
      assert r[j] == s[j - 1];
      if i > 0 {
        assert r[i] == s[i - 1];
      }
    }
  }

  lemma {:induction false} InsertAscending<T>(e: T, s: seq<T>, key: T -> nat)
    requires StrictlyAscending(s, key)
    requires forall x | x in s :: key(x) != key(e)
    ensures StrictlyAscending(Insert(e, s, key), key)
  {
    if s == [] {
    } else if key(e) <= key(s[0]) {
      assert s[0] in s;
      ConsAscending(e, s, key);
    } else {
      var t := s[1..];
      assert StrictlyAscending(t, key);
      InsertAscending(e, t, key);
      var it := Insert(e, t, key);
      forall j | 0 <= j < |it| ensures key(s[0]) < key(it[j]) {
        var x := it[j];
        assert x in multiset(it);
        if x != e {
          var k :| 0 <= k < |t| && t[k] == x;
          assert s[k + 1] == x;
        }
      }
      ConsAscending(s[0], it, key);
    }
  }

  /** Sorting elements whose keys are pairwise distinct gives a strictly
      ascending sequence. */
  lemma {:induction false} SortAscending<T>(d: seq<T>, key: T -> nat)
    requires forall i, j | 0 <= i < j < |d| :: key(d[i]) != key(d[j])
    ensures StrictlyAscending(SortBy(d, key), key)
  {
    if d != [] {
      var t := d[1..];
      SortAscending(t, key);
      var st := SortBy(t, key);
      forall x | x in st ensures key(x) != key(d[0]) {
        assert x in multiset(st);
        var j :| 0 <= j < |t| && t[j] == x;
        assert d[j + 1] == x;
      }
      InsertAscending(d[0], st, key);
    }
  }

  /** A permutation has the same keys. */
  lemma KeysOfPermutation(a: seq<Entry>, b: seq<Entry>)
    requires multiset(a) == multiset(b)
    ensures Keys(a) == Keys(b)
  {
    forall e | e in a ensures e in b {
      assert e in multiset(a);
    }
    forall e | e in b ensures e in a {
      assert e in multiset(b);
    }
  }

  /** Every key of the dict is a canonical label of a qualifying height, so it
      has a sort key that renders back to it, and distinct labels have
      distinct sort keys. */
  lemma FirstWinsKeyed(fs: seq<Fmt>)
    ensures Keyed(FirstWins(fs))
    ensures forall e | e in FirstWins(fs) :: SortKey(e.key) == Some(KeyOf(e)) && Label(KeyOf(e)) == e.key
    ensures forall i, j | 0 <= i < j < |FirstWins(fs)| :: KeyOf(FirstWins(fs)[i]) != KeyOf(FirstWins(fs)[j])
  {
    var d := FirstWins(fs);
    FirstWinsKeys(fs);
    FirstWinsDistinct(fs);
    forall e | e in d ensures SortKey(e.key).Some? && Label(SortKey(e.key).value) == e.key {
      assert e.key in Keys(d);
      var i :| 0 <= i < |fs| && Qualifies(fs[i]) && e.key == Label(fs[i].height.value);
      LabelRoundTrip(fs[i].height.value);
    }
    forall i, j | 0 <= i < j < |d| ensures KeyOf(d[i]) != KeyOf(d[j]) {
      assert d[i] in d && d[j] in d;
    }
    forall i | 0 <= i < |d| ensures SortKey(d[i].key).Some? {
      assert d[i] in d;
    }
  }

  /** The properties of the sorted list, proved once for `Resolutions`. */
  lemma SortedResolutions(fs: seq<Fmt>)
    ensures Keyed(FirstWins(fs))
    ensures StrictlyAscending(SortByKey(FirstWins(fs)), KeyOf)
    ensures forall e | e in SortByKey(FirstWins(fs)) :: SortKey(e.key) == Some(KeyOf(e)) && Label(KeyOf(e)) == e.key
    ensures Keys(SortByKey(FirstWins(fs))) == set i | 0 <= i < |fs| && Qualifies(fs[i]) :: Label(fs[i].height.value)
    ensures |SortByKey(FirstWins(fs))| <= |fs|
  {
    var d := FirstWins(fs);
    FirstWinsKeyed(fs);
    FirstWinsKeys(fs);
    FirstWinsDistinct(fs);
    SortAscending(d, KeyOf);
    var r := SortByKey(d);
    KeysOfPermutation(r, d);
    forall e | e in r ensures e in d {
      assert e in multiset(r);
    }
    assert |r| == |multiset(r)| == |multiset(d)| == |d|;
  }

  /** The `resolutions` list of the reply: the dict sorted by numeric height.
      It is strictly ascending, a permutation of the dict, no longer than
      the input, holds exactly the labels of the qualifying heights, and
      every label's sort key renders back to that label. */
  function Resolutions(fs: seq<Fmt>): (r: seq<Entry>)
    ensures StrictlyAscending(r, KeyOf)
    ensures multiset(r) == multiset(FirstWins(fs))
    ensures forall e | e in r :: SortKey(e.key) == Some(KeyOf(e)) && Label(KeyOf(e)) == e.key
    ensures Keys(r) == set i | 0 <= i < |fs| && Qualifies(fs[i]) :: Label(fs[i].height.value)
    ensures |r| <= |fs|
  {
    SortedResolutions(fs);
    SortByKey(FirstWins(fs))
  }

  /** The 200 body `get_formats` builds from the engine's metadata. */
  function Summary(info: Info): (b: FormatsBody)
    ensures b.resolutions == Resolutions(info.formats.GetOr([]))
    ensures b.audio <==> exists i | 0 <= i < |info.formats.GetOr([])| :: info.formats.GetOr([])[i].vcodec == Some(AudioOnly)
    ensures b.title == info.title && b.id == info.id
  {
    var fs := info.formats.GetOr([]);
    AnyAudioOnlyIff(fs);
    FormatsBody(Resolutions(fs), AnyAudioOnly(fs), info.title, info.id)
  }

  /** A worked example: two 144-pixel streams, a 1080 and a 720 stream, and
      one audio-only stream. The first 144 stream claims its label, the
      second is dropped, and the audio-only stream contributes nothing. */
  const ExampleList := [Fmt("160", Some("avc1"), Some(144)), Fmt("278", Some("vp9"), Some(144)),
                        Fmt("137", Some("avc1"), Some(1080)), Fmt("136", None, Some(720)),
                        Fmt("140", Some(AudioOnly), None)]

  lemma ExampleLabels()
    ensures Label(144) == "144p" && Label(720) == "720p" && Label(1080) == "1080p"
  {
    assert NatToString(144) == "144" && NatToString(720) == "720" && NatToString(1080) == "1080";
  }

  lemma ExampleDedup()
    ensures FirstWins(ExampleList) == [Entry("144p", "160"), Entry("1080p", "137"), Entry("720p", "136")]
  {
    var fs := ExampleList;
    ExampleLabels();
    assert fs[3..][1..] == fs[4..] && fs[2..][1..] == fs[3..] && fs[1..][1..] == fs[2..];
    assert FirstWins(fs[4..]) == [];
    assert FirstWins(fs[3..]) == [Entry("720p", "136")];
    var tail := [Entry("1080p", "137"), Entry("720p", "136")];
    assert FirstWins(fs[2..]) == tail;
    assert "144p" != "1080p" && "144p" != "720p";
    assert Without(tail, "144p") == tail by {
      assert tail[1..] == [Entry("720p", "136")];
      assert Without(tail[1..], "144p") == tail[1..];
    }
    var full := [Entry("144p", "278")] + tail;
    assert FirstWins(fs[1..]) == full;
    assert Without(full, "144p") == tail by {
      assert full[1..] == tail;
    }
  }
}

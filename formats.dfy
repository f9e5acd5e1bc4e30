/**
  The format normaliser of the `/api/getinfo` handler: the raw `formats` list
  reported by yt-dlp is filtered, each surviving entry is reshaped into the
  client-facing record, and the records are sorted with audio-carrying
  entries first and, among those with the same audio flag, higher numeric
  quality first.
 */
module Formats {

  import opened Wrappers
  import opened JsText

  /**
    One entry of yt-dlp's `formats` list, restricted to the properties the
    handler reads. A property that is absent or null is None.
   */
  datatype RawFormat = RawFormat(
    url: Option<string>,
    ext: Option<string>,
    height: Option<nat>,
    acodec: Option<string>,
    vcodec: Option<string>)

  /** The record the handler returns for each kept format. */
  datatype NormalizedFormat = NormalizedFormat(
    quality: string,
    ext: Option<string>,
    hasAudio: bool,
    hasVideo: bool,
    acodec: Option<string>,
    vcodec: Option<string>,
    url: string)

  /** yt-dlp's codec sentinel for "this stream is absent". */
  const NoCodec: string := "none"
  /** Marker of an HLS playlist URL. */
  const ManifestMarker: string := ".m3u8"
  /** Container yt-dlp reports for storyboard (thumbnail sheet) formats. */
  const StoryboardExt: string := "mhtml"
  /** Quality label of an entry without a truthy height. */
  const FallbackQuality: string := "audio"

  /** `f.url` is truthy: present and not the empty string. */
  predicate HasUrl(f: RawFormat)
  {
    f.url.Some? && f.url.value != []
  }

  /** `f.height` is truthy: present and not zero. */
  predicate HasHeight(f: RawFormat)
  {
    f.height.Some? && f.height.value != 0
  }

  /** A codec field that is not the sentinel (an absent field is not the sentinel either). */
  predicate IsStream(codec: Option<string>)
  {
    codec != Some(NoCodec)
  }

  /**
    The filter predicate: an entry survives exactly when it has a truthy URL
    that is not an HLS playlist, is not a storyboard and carries a stream.
   */
  predicate Keep(f: RawFormat)
    ensures !HasUrl(f) ==> !Keep(f)
    ensures f.url.Some? && Contains(f.url.value, ManifestMarker) ==> !Keep(f)
    ensures f.ext == Some(StoryboardExt) ==> !Keep(f)
    ensures f.acodec == Some(NoCodec) && f.vcodec == Some(NoCodec) ==> !Keep(f)
    ensures (&& HasUrl(f)
             && !Contains(f.url.value, ManifestMarker)
             && f.ext != Some(StoryboardExt)
             && (f.acodec != Some(NoCodec) || f.vcodec != Some(NoCodec))) ==> Keep(f)
  {
    && HasUrl(f)
    && !Contains(f.url.value, ManifestMarker)
    && f.ext != Some(StoryboardExt)
    && (IsStream(f.vcodec) || IsStream(f.acodec))
  }

  /** `fs.filter(Keep)`: the kept entries, each as often as in the input. */
  function FilterFormats(fs: seq<RawFormat>): (r: seq<RawFormat>)
    ensures forall i :: 0 <= i < |r| ==> Keep(r[i])
    ensures forall f :: multiset(r)[f] == if Keep(f) then multiset(fs)[f] else 0
    ensures |r| <= |fs|
  {
    if fs == [] then []
    else
      assert fs == [fs[0]] + fs[1..];
      (if Keep(fs[0]) then [fs[0]] else []) + FilterFormats(fs[1..])
  }

  lemma {:induction false} FilterFormatsAppend(a: seq<RawFormat>, b: seq<RawFormat>)
    ensures FilterFormats(a + b) == FilterFormats(a) + FilterFormats(b)
  {
    if a != [] {
      assert (a + b)[0] == a[0] && (a + b)[1..] == a[1..] + b;
      FilterFormatsAppend(a[1..], b);
    } else {
      assert a + b == b;
    }
  }

  /** The `quality` label: the height followed by "p", or "audio". */
  function QualityLabel(f: RawFormat): (q: string)
    ensures q == FallbackQuality <==> !HasHeight(f)
    ensures HasHeight(f) ==> q != [] && q[|q| - 1] == 'p' && ParseIntPrefix(q) == Some(f.height.value)
    ensures HasHeight(f) ==>
      && |q| >= 2 && AllDigits(q[..|q| - 1]) && q[0] != '0'
      && DigitsValue(q[..|q| - 1]) == f.height.value
  {
    if HasHeight(f) then
      var d := Decimal(f.height.value);
      ParseIntOfDecimalSuffix(f.height.value, "p");
      DigitsValueOfDecimal(f.height.value);
      assert (d + "p")[..|d + "p"| - 1] == d;
      d + "p"
    else FallbackQuality
  }

  /** The `.map(...)` step applied to one kept entry. */
  function Normalize(f: RawFormat): (n: NormalizedFormat)
    requires f.url.Some?
    ensures n.quality == QualityLabel(f)
    ensures n.url == f.url.value && n.ext == f.ext
    ensures n.acodec == f.acodec && n.vcodec == f.vcodec
    ensures n.hasAudio <==> f.acodec != Some(NoCodec)
    ensures n.hasVideo <==> f.vcodec != Some(NoCodec)
  {
    NormalizedFormat(
      quality := QualityLabel(f),
      ext := f.ext,
      hasAudio := IsStream(f.acodec),
      hasVideo := IsStream(f.vcodec),
      acodec := f.acodec,
      vcodec := f.vcodec,
      url := f.url.value)
  }

  /** `fs.map(Normalize)`. */
  function MapFormats(fs: seq<RawFormat>): (r: seq<NormalizedFormat>)
    requires forall i :: 0 <= i < |fs| ==> fs[i].url.Some?
    ensures |r| == |fs|
    ensures forall i :: 0 <= i < |fs| ==> r[i] == Normalize(fs[i])
  {
    seq(|fs|, i requires 0 <= i < |fs| => Normalize(fs[i]))
  }

  /** `parseInt(n.quality) || 0`: NaN and 0 both become 0. */
  function Rank(n: NormalizedFormat): (r: nat)
    ensures n.quality == [] || !IsDigit(n.quality[0]) ==> r == 0
    ensures n.quality == FallbackQuality ==> r == 0
  {
    ParseIntPrefix(n.quality).GetOr(0)
  }

  /** The numeric rank the sort sees is the height when it is truthy, and 0 otherwise. */
  lemma QualityRank(f: RawFormat)
    requires f.url.Some?
    ensures Rank(Normalize(f)) == if HasHeight(f) then f.height.value else 0
    ensures Normalize(f).quality == FallbackQuality <==> !HasHeight(f)
  {
    if HasHeight(f) {
      ParseIntOfDecimalSuffix(f.height.value, "p");
    }
  }

  /** Two heights that both yield a numeric label yield the same label only when equal. */
  lemma QualityLabelInjective(f: RawFormat, g: RawFormat)
    requires HasHeight(f) && HasHeight(g)
    requires QualityLabel(f) == QualityLabel(g)
    ensures f.height == g.height
  {
    var a, b := Decimal(f.height.value), Decimal(g.height.value);
    assert a == (a + "p")[..|a|];
    assert |a + "p"| == |b + "p"|;
    assert b == (b + "p")[..|b|];
    DecimalInjective(f.height.value, g.height.value);
  }

  function BoolNum(b: bool): int
  {
    if b then 1 else 0
  }

  /**
    The comparator given to `sort`: a negative result puts `a` before `b`, a
    positive one puts `b` before `a`.
   */
  function Compare(a: NormalizedFormat, b: NormalizedFormat): (c: int)
    ensures c < 0 <==> (a.hasAudio && !b.hasAudio) || (a.hasAudio == b.hasAudio && Rank(a) > Rank(b))
    ensures c == 0 <==> a.hasAudio == b.hasAudio && Rank(a) == Rank(b)
  {
    if a.hasAudio != b.hasAudio then BoolNum(b.hasAudio) - BoolNum(a.hasAudio)
    else Rank(b) - Rank(a)
  }

  /** What the comparator looks at. */
  datatype SortKey = SortKey(audio: bool, rank: nat)

  function KeyOf(n: NormalizedFormat): SortKey
  {
    SortKey(n.hasAudio, Rank(n))
  }

  /**
    The comparator is consistent in the sense `Array.prototype.sort` needs: it
    depends only on the sort key, is antisymmetric, returns 0 exactly on equal
    keys, is transitive, and orders audio first and then by descending rank.
   */
  lemma CompareConsistent(a: NormalizedFormat, b: NormalizedFormat, c: NormalizedFormat)
    ensures KeyOf(a) == KeyOf(c) ==> Compare(a, b) == Compare(c, b)
    ensures Compare(a, b) == -Compare(b, a)
    ensures Compare(a, b) == 0 <==> KeyOf(a) == KeyOf(b)
    ensures Compare(a, b) <= 0 && Compare(b, c) <= 0 ==> Compare(a, c) <= 0
    ensures Compare(a, b) < 0 <==>
      (a.hasAudio && !b.hasAudio) || (a.hasAudio == b.hasAudio && Rank(a) > Rank(b))
  {
  }

  /** No later element should, by the comparator, come before an earlier one. */
  predicate Sorted(s: seq<NormalizedFormat>)
  {
    forall i, j :: 0 <= i < j < |s| ==> Compare(s[i], s[j]) <= 0
  }

  /**
    Inserts `x` in front of the first element it does not have to follow. Since
    `x` came earlier in the input than every element of `s`, equal keys keep
    their input order.
   */
  function Insert(x: NormalizedFormat, s: seq<NormalizedFormat>): (r: seq<NormalizedFormat>)
    ensures multiset(r) == multiset(s) + multiset{x}
  {
    if s == [] then [x]
    else if Compare(x, s[0]) > 0 then
      assert s == [s[0]] + s[1..];
      [s[0]] + Insert(x, s[1..])
    else [x] + s
  }

  /** A stable sort by `Compare` (insertion sort); it permutes its input. */
  function SortFormats(s: seq<NormalizedFormat>): (r: seq<NormalizedFormat>)
    ensures multiset(r) == multiset(s)
  {
    if s == [] then []
    else
      assert s == [s[0]] + s[1..];
      Insert(s[0], SortFormats(s[1..]))
  }

  lemma ConsSorted(a: NormalizedFormat, t: seq<NormalizedFormat>)
    requires Sorted(t)
    requires forall e :: e in t ==> Compare(a, e) <= 0
    ensures Sorted([a] + t)
  {
    var r := [a] + t;
    forall i, j | 0 <= i < j < |r| ensures Compare(r[i], r[j]) <= 0 {
      assert r[j] == t[j - 1];
      if i > 0 {
        assert r[i] == t[i - 1];
      }
    }
  }

  lemma {:induction false} InsertSorted(x: NormalizedFormat, s: seq<NormalizedFormat>)
    requires Sorted(s)
    ensures Sorted(Insert(x, s))
  {
    if s == [] {
    } else if Compare(x, s[0]) > 0 {
      var t := Insert(x, s[1..]);
      assert Sorted(s[1..]) by {
        forall i, j | 0 <= i < j < |s| - 1 ensures Compare(s[1..][i], s[1..][j]) <= 0 {
          assert s[1..][i] == s[i + 1] && s[1..][j] == s[j + 1];
        }
      }
      InsertSorted(x, s[1..]);
      forall e | e in t ensures Compare(s[0], e) <= 0 {
        assert e in multiset(t);
        if e == x {
          CompareConsistent(x, s[0], x);
        } else {
          assert e in multiset(s[1..]);
          var k :| 0 <= k < |s| - 1 && s[1..][k] == e;
          assert s[k + 1] == e;
        }
      }
      ConsSorted(s[0], t);
    } else {
      forall e | e in s ensures Compare(x, e) <= 0 {
        var k :| 0 <= k < |s| && s[k] == e;
        if k > 0 {
          CompareConsistent(x, s[0], e);
        }
      }
      ConsSorted(x, s);
    }
  }

  lemma {:induction false} SortFormatsSorted(s: seq<NormalizedFormat>)
    ensures Sorted(SortFormats(s))
  {
    if s != [] {
      SortFormatsSorted(s[1..]);
      InsertSorted(s[0], SortFormats(s[1..]));
    }
  }

  /** The entries of `s` whose sort key is `k`, in order. */
  function WithKey(s: seq<NormalizedFormat>, k: SortKey): (r: seq<NormalizedFormat>)
    ensures forall e :: e in r ==> e in s && KeyOf(e) == k
  {
    if s == [] then []
    else (if KeyOf(s[0]) == k then [s[0]] else []) + WithKey(s[1..], k)
  }

  lemma WithKeyCons(x: NormalizedFormat, s: seq<NormalizedFormat>, k: SortKey)
    ensures WithKey([x] + s, k) == (if KeyOf(x) == k then [x] else []) + WithKey(s, k)
  {
    assert ([x] + s)[0] == x && ([x] + s)[1..] == s;
  }

  /** Entries with different keys can trade places without changing what one key selects. */
  lemma WithKeySwap(a: NormalizedFormat, b: NormalizedFormat, w: seq<NormalizedFormat>, k: SortKey)
    requires KeyOf(a) != KeyOf(b)
    ensures (if KeyOf(b) == k then [b] else []) + ((if KeyOf(a) == k then [a] else []) + w)
         == (if KeyOf(a) == k then [a] else []) + ((if KeyOf(b) == k then [b] else []) + w)
  {
  }

  lemma {:induction false} InsertWithKey(x: NormalizedFormat, s: seq<NormalizedFormat>, k: SortKey)
    ensures WithKey(Insert(x, s), k) == (if KeyOf(x) == k then [x] else []) + WithKey(s, k)
  {
    if s == [] {
      WithKeyCons(x, [], k);
    } else if Compare(x, s[0]) > 0 {
      CompareConsistent(x, s[0], x);
      InsertWithKey(x, s[1..], k);
      WithKeyCons(s[0], Insert(x, s[1..]), k);
      WithKeyCons(s[0], s[1..], k);
      assert s == [s[0]] + s[1..];
      WithKeySwap(x, s[0], WithKey(s[1..], k), k);
    } else {
      WithKeyCons(x, s, k);
    }
  }

  /** Stability: the entries sharing a sort key keep their relative input order. */
  lemma {:induction false} SortFormatsStable(s: seq<NormalizedFormat>, k: SortKey)
    ensures WithKey(SortFormats(s), k) == WithKey(s, k)
  {
    if s != [] {
      SortFormatsStable(s[1..], k);
      InsertWithKey(s[0], SortFormats(s[1..]), k);
    }
  }

  /** In a sorted sequence the head carries the greatest key (by the comparator). */
  lemma SortedHeadFirst(s: seq<NormalizedFormat>, e: NormalizedFormat)
    requires Sorted(s) && e in s
    ensures Compare(s[0], e) <= 0
  {
    var j :| 0 <= j < |s| && s[j] == e;
    if j == 0 {
      CompareConsistent(e, e, e);
    }
  }

  lemma HeadHasItsKey(s: seq<NormalizedFormat>)
    requires s != []
    ensures WithKey(s, KeyOf(s[0])) != []
  {
    WithKeyCons(s[0], s[1..], KeyOf(s[0]));
    assert s == [s[0]] + s[1..];
  }

  /** The head of a sorted sequence is not after the head of one with the same keyed entries. */
  lemma HeadNotAfter(r1: seq<NormalizedFormat>, r2: seq<NormalizedFormat>)
    requires Sorted(r2) && r1 != [] && r2 != []
    requires forall k :: WithKey(r1, k) == WithKey(r2, k)
    ensures Compare(r2[0], r1[0]) <= 0
  {
    var a := r1[0];
    HeadHasItsKey(r1);
    var e :| e in WithKey(r2, KeyOf(a));
    SortedHeadFirst(r2, e);
    CompareConsistent(e, r2[0], a);
    CompareConsistent(r2[0], e, a);
  }

  /** The heads of two key-by-key equal sorted sequences have the same key. */
  lemma HeadsShareKey(r1: seq<NormalizedFormat>, r2: seq<NormalizedFormat>)
    requires Sorted(r1) && Sorted(r2) && r1 != [] && r2 != []
    requires forall k :: WithKey(r1, k) == WithKey(r2, k)
    ensures KeyOf(r1[0]) == KeyOf(r2[0])
  {
    HeadNotAfter(r1, r2);
    HeadNotAfter(r2, r1);
    CompareConsistent(r1[0], r2[0], r1[0]);
  }

  /**
    Two sorted sequences that agree, key by key, on the ordered entries with
    that key are equal: there is exactly one stable sorted arrangement.
   */
  lemma {:induction false} StableArrangementUnique(r1: seq<NormalizedFormat>, r2: seq<NormalizedFormat>)
    requires Sorted(r1) && Sorted(r2)
    requires forall k :: WithKey(r1, k) == WithKey(r2, k)
    ensures r1 == r2
    decreases |r1|
  {
    if r1 == [] && r2 != [] {
      HeadHasItsKey(r2);
    } else if r1 != [] && r2 == [] {
      HeadHasItsKey(r1);
    } else if r1 != [] {
      var a, b := r1[0], r2[0];
      HeadsShareKey(r1, r2);
      var t1, t2 := r1[1..], r2[1..];
      assert r1 == [a] + t1 && r2 == [b] + t2;
      var key := KeyOf(a);
      WithKeyCons(a, t1, key);
      WithKeyCons(b, t2, key);
      assert WithKey(r1, key) == [a] + WithKey(t1, key);
      assert WithKey(r2, key) == [b] + WithKey(t2, key);
      assert a == WithKey(r1, key)[0] == WithKey(r2, key)[0] == b;
      forall k ensures WithKey(t1, k) == WithKey(t2, k) {
        WithKeyCons(a, t1, k);
        WithKeyCons(b, t2, k);
        var p := if key == k then [a] else [];
        assert WithKey(r1, k) == p + WithKey(t1, k);
        assert WithKey(r2, k) == p + WithKey(t2, k);
        assert WithKey(t1, k) == WithKey(r1, k)[|p|..];
        assert WithKey(t2, k) == WithKey(r2, k)[|p|..];
      }
      assert Sorted(t1) by {
        forall i, j | 0 <= i < j < |t1| ensures Compare(t1[i], t1[j]) <= 0 {
          assert t1[i] == r1[i + 1] && t1[j] == r1[j + 1];
        }
      }
      assert Sorted(t2) by {
        forall i, j | 0 <= i < j < |t2| ensures Compare(t2[i], t2[j]) <= 0 {
          assert t2[i] == r2[i + 1] && t2[j] == r2[j + 1];
        }
      }
      StableArrangementUnique(t1, t2);
    }
  }

  /**
    Any sorted arrangement of `s` that keeps equal-key entries in input order
    is the one SortFormats returns; so the model agrees with every stable sort
    the JavaScript engine may use.
   */
  lemma SortFormatsIsTheStableSort(s: seq<NormalizedFormat>, r: seq<NormalizedFormat>)
    requires Sorted(r)
    requires forall k :: WithKey(r, k) == WithKey(s, k)
    ensures r == SortFormats(s)
  {
    SortFormatsSorted(s);
    forall k ensures WithKey(r, k) == WithKey(SortFormats(s), k) {
      SortFormatsStable(s, k);
    }
    StableArrangementUnique(r, SortFormats(s));
  }

  /** What sortedness by `Compare` says about the audio flags and ranks. */
  lemma SortedOrder(r: seq<NormalizedFormat>)
    requires Sorted(r)
    ensures forall i, j :: 0 <= i < j < |r| ==> r[i].hasAudio || !r[j].hasAudio
    ensures forall i, j :: 0 <= i < j < |r| && r[i].hasAudio == r[j].hasAudio ==>
      Rank(r[i]) >= Rank(r[j])
  {
    forall i, j | 0 <= i < j < |r|
      ensures r[i].hasAudio || !r[j].hasAudio
      ensures r[i].hasAudio == r[j].hasAudio ==> Rank(r[i]) >= Rank(r[j])
    {
      CompareConsistent(r[i], r[j], r[i]);
    }
  }

  /** The whole `(meta.formats || []).filter(...).map(...).sort(...)` chain. */
  function NormalizeFormats(formats: Option<seq<RawFormat>>): (r: seq<NormalizedFormat>)
    ensures formats.None? ==> r == []
    ensures |r| == |FilterFormats(formats.GetOr([]))| <= |formats.GetOr([])|
    ensures multiset(r) == multiset(MapFormats(FilterFormats(formats.GetOr([]))))
    ensures forall i :: 0 <= i < |r| ==>
      && r[i].url != []
      && !Contains(r[i].url, ManifestMarker)
      && r[i].ext != Some(StoryboardExt)
      && (r[i].hasAudio || r[i].hasVideo)
    ensures forall i, j :: 0 <= i < j < |r| ==> r[i].hasAudio || !r[j].hasAudio
    ensures forall i, j :: 0 <= i < j < |r| && r[i].hasAudio == r[j].hasAudio ==>
      Rank(r[i]) >= Rank(r[j])
  {
    var kept := FilterFormats(formats.GetOr([]));
    var mapped := MapFormats(kept);
    SortFormatsSorted(mapped);
    var r := SortFormats(mapped);
    forall i | 0 <= i < |r|
      ensures && r[i].url != []
              && !Contains(r[i].url, ManifestMarker)
              && r[i].ext != Some(StoryboardExt)
              && (r[i].hasAudio || r[i].hasVideo)
    {
      assert r[i] in multiset(mapped);
      var j :| 0 <= j < |mapped| && mapped[j] == r[i];
      assert Keep(kept[j]);
    }
    SortedOrder(r);
    r
  }

  /** Every returned record is the normalisation of some kept input entry. */
  lemma OutputsComeFromKeptInputs(formats: Option<seq<RawFormat>>, n: NormalizedFormat)
    requires n in NormalizeFormats(formats)
    ensures exists f :: f in formats.GetOr([]) && Keep(f) && Normalize(f) == n
  {
    var raw := formats.GetOr([]);
    var kept := FilterFormats(raw);
    var mapped := MapFormats(kept);
    assert n in multiset(mapped);
    var i :| 0 <= i < |mapped| && mapped[i] == n;
    var f := kept[i];
    assert f in multiset(kept);
    assert Keep(f) && f in raw;
  }

  /** An entry reaches the response, normalised, exactly when the filter keeps it. */
  lemma KeepIffSurvives(f: RawFormat)
    ensures Keep(f) <==> NormalizeFormats(Some([f])) != []
    ensures Keep(f) ==> NormalizeFormats(Some([f])) == [Normalize(f)]
  {
    assert [f][1..] == [];
    if Keep(f) {
      assert FilterFormats([f]) == [f];
      assert MapFormats([f]) == [Normalize(f)];
      assert SortFormats([Normalize(f)]) == Insert(Normalize(f), []);
    } else {
      assert FilterFormats([f]) == [];
    }
  }

  /**
    An entry the filter rejects has no influence on the response, wherever it
    stands in the list.
   */
  lemma DroppedEntryHasNoEffect(xs: seq<RawFormat>, f: RawFormat, ys: seq<RawFormat>)
    requires !Keep(f)
    ensures NormalizeFormats(Some(xs + [f] + ys)) == NormalizeFormats(Some(xs + ys))
  {
    FilterFormatsAppend(xs + [f], ys);
    FilterFormatsAppend(xs, [f]);
    FilterFormatsAppend(xs, ys);
    assert FilterFormats([f]) == [];
    assert FilterFormats(xs + [f]) == FilterFormats(xs);
  }

  /**
    A video-only entry listed before an entry with audio comes out after it,
    whatever their heights (for instance 720p without audio and 480p with it).
   */
  lemma AudioOutranksHeight(video: RawFormat, withAudio: RawFormat)
    requires Keep(video) && Keep(withAudio)
    requires video.acodec == Some(NoCodec) && withAudio.acodec != Some(NoCodec)
    ensures NormalizeFormats(Some([video, withAudio])) == [Normalize(withAudio), Normalize(video)]
  {
    var a, b := Normalize(video), Normalize(withAudio);
    assert FilterFormats([video, withAudio]) == [video, withAudio] by {
      assert [video, withAudio][1..] == [withAudio];
      assert FilterFormats([withAudio]) == [withAudio];
    }
    assert SortFormats([a, b]) == [b, a] by {
      assert Compare(a, b) > 0;
      assert [a, b][1..] == [b];
      assert SortFormats([b]) == [b];
    }
    assert MapFormats([video, withAudio]) == [a, b];
  }

  function ScenarioWithAudio(): RawFormat
  {
    RawFormat(Some("u1"), Some("mp4"), Some(720), Some("aac"), Some("avc1"))
  }

  function ScenarioVideoOnly(): RawFormat
  {
    RawFormat(Some("u2"), Some("mp4"), None, Some(NoCodec), Some("avc1"))
  }

  lemma Decimal720()
    ensures Decimal(720) == "720"
  {
    assert Decimal(7) == "7";
    assert Decimal(72) == Decimal(7) + [DigitChar(2)] == "72";
    assert Decimal(720) == Decimal(72) + [DigitChar(0)] == "720";
  }

  /** The 720p entry is labelled "720p". */
  lemma ScenarioLabel()
    ensures Normalize(ScenarioWithAudio()).quality == "720p"
  {
    var f := ScenarioWithAudio();
    assert HasHeight(f) && f.height.value == 720;
    Decimal720();
    assert QualityLabel(f) == Decimal(720) + "p";
  }

  /** Both example entries pass the filter. */
  lemma ScenarioFilter()
    ensures FilterFormats([ScenarioWithAudio(), ScenarioVideoOnly()])
            == [ScenarioWithAudio(), ScenarioVideoOnly()]
  {
    var f, g := ScenarioWithAudio(), ScenarioVideoOnly();
    assert Keep(f) && Keep(g);
    assert [f, g][1..] == [g];
    assert FilterFormats([g]) == [g];
  }

  /** The normalised example entries are already in sorted order. */
  lemma ScenarioSort()
    ensures var a, b := Normalize(ScenarioWithAudio()), Normalize(ScenarioVideoOnly());
      SortFormats([a, b]) == [a, b]
  {
    var a, b := Normalize(ScenarioWithAudio()), Normalize(ScenarioVideoOnly());
    assert Compare(a, b) < 0;
    assert [a, b][1..] == [b];
    assert SortFormats([b]) == [b];
  }

  /**
    A 720p entry with audio followed by a video-only entry without a height:
    both are kept, in that order, labelled "720p" and "audio".
   */
  lemma ScenarioFormats()
    ensures NormalizeFormats(Some([ScenarioWithAudio(), ScenarioVideoOnly()]))
            == [Normalize(ScenarioWithAudio()), Normalize(ScenarioVideoOnly())]
    ensures Normalize(ScenarioWithAudio()).quality == "720p"
    ensures Normalize(ScenarioVideoOnly()).quality == FallbackQuality
  {
    var f, g := ScenarioWithAudio(), ScenarioVideoOnly();
    ScenarioLabel();
    ScenarioFilter();
    assert MapFormats([f, g]) == [Normalize(f), Normalize(g)];
    ScenarioSort();
  }
}

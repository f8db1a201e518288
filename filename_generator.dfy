/**
 * Naming the saved file after the download link (`TikTokDownloader.generate_filename`).
 * The clock reading `int(time.time())` is passed in as `now`.
 */
module FilenameGenerator {

  import opened Text

  /** The characters allowed in a file stem: ASCII letters, digits, `-` and `_`. */
  predicate IsSafeChar(c: char)
  {
    ('a' <= c <= 'z') || ('A' <= c <= 'Z') || ('0' <= c <= '9') || c == '-' || c == '_'
  }

  predicate AllSafe(s: string)
  {
    forall i :: 0 <= i < |s| ==> IsSafeChar(s[i])
  }

  const Extension: string := ".mp4"
  const MinIdLength: nat := 5

  /** A stem of at least five safe characters followed by `.mp4`. */
  predicate IsSafeFilename(f: string)
  {
    |f| >= MinIdLength + |Extension| && f[|f| - |Extension|..] == Extension && AllSafe(f[..|f| - |Extension|])
  }

  /**
   * `s.split('/')[-1]`: the suffix of `s` after its last `/`, or all of `s` when it
   * has none.
   */
  function LastSegment(s: string): (r: string)
    ensures '/' !in r
    ensures |r| <= |s| && r == s[|s| - |r|..]
    ensures |r| < |s| ==> s[|s| - |r| - 1] == '/'
    decreases |s|
  {
    if s == [] then []
    else if s[|s| - 1] == '/' then []
    else
      var init := s[..|s| - 1];
      var prev := LastSegment(init);
      var r := prev + [s[|s| - 1]];
      assert s[|s| - |r|..] == init[|init| - |prev|..] + [s[|s| - 1]];
      r
  }

  /** `s.split('?')[0]`: the prefix of `s` before its first `?`, or all of `s`. */
  function BeforeQuery(s: string): (r: string)
    ensures '?' !in r
    ensures |r| <= |s| && r == s[..|r|]
    ensures |r| < |s| ==> s[|r|] == '?'
    decreases |s|
  {
    if s == [] then []
    else if s[0] == '?' then []
    else
      var rest := BeforeQuery(s[1..]);
      assert s[..1 + |rest|] == [s[0]] + s[1..][..|rest|];
      [s[0]] + rest
  }

  /** `''.join(c for c in s if c in safe_chars)`. */
  function KeepSafe(s: string): (r: string)
    ensures |r| <= |s|
    ensures AllSafe(r)
    decreases |s|
  {
    if s == [] then []
    else (if IsSafeChar(s[0]) then [s[0]] else []) + KeepSafe(s[1..])
  }

  /** Each safe character is kept as often as it occurs, and nothing else survives. */
  lemma {:induction false} KeepSafeCounts(s: string)
    ensures forall c :: IsSafeChar(c) ==> multiset(KeepSafe(s))[c] == multiset(s)[c]
    ensures forall c :: !IsSafeChar(c) ==> multiset(KeepSafe(s))[c] == 0
    decreases |s|
  {
    if s != [] {
      KeepSafeCounts(s[1..]);
      assert s == [s[0]] + s[1..];
      assert multiset(s) == multiset([s[0]]) + multiset(s[1..]);
    }
  }

  /** A single unsafe character is dropped, a single safe one kept. */
  lemma KeepSafeOfChar(c: char)
    ensures KeepSafe([c]) == (if IsSafeChar(c) then [c] else [])
  {
    assert [c][1..] == [];
  }

  /** The decimal digit for `d`. */
  function Digit(d: nat): (c: char)
    requires d < 10
    ensures '0' <= c <= '9'
  {
    ('0' as int + d) as char
  }

  /** `str(n)` for a non-negative integer: its decimal digits, without leading zeros. */
  function Decimal(n: nat): (r: string)
    ensures |r| >= 1
    ensures forall i :: 0 <= i < |r| ==> '0' <= r[i] <= '9'
    ensures r[0] == '0' ==> n == 0
    decreases n
  {
    if n < 10 then [Digit(n)] else Decimal(n / 10) + [Digit(n % 10)]
  }

  /** Reading decimal digits back into a number. */
  function DecimalValue(s: string): nat
    requires forall i :: 0 <= i < |s| ==> '0' <= s[i] <= '9'
    decreases |s|
  {
    if s == [] then 0 else 10 * DecimalValue(s[..|s| - 1]) + (s[|s| - 1] as int - '0' as int)
  }

  /** The timestamp in a fallback name can be read back: `Decimal` loses nothing. */
  lemma {:induction false} DecimalRoundTrip(n: nat)
    ensures DecimalValue(Decimal(n)) == n
    decreases n
  {
    if n >= 10 {
      DecimalRoundTrip(n / 10);
      assert Decimal(n)[..|Decimal(n)| - 1] == Decimal(n / 10);
    }
  }

  /** The video id: the safe characters of the last path segment, query cut off. */
  function VideoId(link: string): (id: string)
    ensures AllSafe(id)
  {
    KeepSafe(BeforeQuery(LastSegment(link)))
  }

  /** The stem used when the id is too short: `video_<now>`. */
  function TimestampStem(now: nat): (stem: string)
    ensures |stem| >= MinIdLength && AllSafe(stem)
  {
    var d := Decimal(now);
    var stem := "video_" + d;
    assert forall i :: 6 <= i < |stem| ==> stem[i] == d[i - 6];
    stem
  }

  /**
   * `generate_filename(link)`: the id with `.mp4` appended when it has at least five
   * characters, `video_<now>.mp4` otherwise.  Either way a safe file name.
   */
  function GenerateFilename(link: string, now: nat): (f: string)
    ensures IsSafeFilename(f)
  {
    var id := VideoId(link);
    var stem := if |id| < MinIdLength then TimestampStem(now) else id;
    assert (stem + Extension)[..|stem|] == stem;
    stem + Extension
  }

  /**
   * The exception handler's name, `tiktok_video_<now>.mp4`.  It is safe too; with
   * the link a string, nothing in `GenerateFilename` can fail, so it is never chosen.
   */
  function FallbackFilename(now: nat): (f: string)
    ensures IsSafeFilename(f)
  {
    var d := Decimal(now);
    var stem := "tiktok_video_" + d;
    assert forall i :: 13 <= i < |stem| ==> stem[i] == d[i - 13];
    assert (stem + Extension)[..|stem|] == stem;
    stem + Extension
  }

  /** Safe characters pass the filter unchanged. */
  lemma {:induction false} KeepSafeOfSafe(s: string)
    requires AllSafe(s)
    ensures KeepSafe(s) == s
    decreases |s|
  {
    if s != [] {
      KeepSafeOfSafe(s[1..]);
    }
  }

  /** The filter works character by character, so it distributes over concatenation. */
  lemma {:induction false} KeepSafeAppend(s: string, t: string)
    ensures KeepSafe(s + t) == KeepSafe(s) + KeepSafe(t)
    decreases |s|
  {
    if s == [] {
      assert s + t == t;
    } else {
      var st := s + t;
      assert st[0] == s[0];
      assert st[1..] == s[1..] + t;
      KeepSafeAppend(s[1..], t);
      assert KeepSafe(st) == (if IsSafeChar(s[0]) then [s[0]] else []) + KeepSafe(s[1..] + t);
    }
  }

  /** `LastSegment` is the only suffix without `/` that starts the string or follows a `/`. */
  lemma LastSegmentUnique(s: string, r: string)
    requires '/' !in r && |r| <= |s| && r == s[|s| - |r|..]
    requires |r| < |s| ==> s[|s| - |r| - 1] == '/'
    ensures LastSegment(s) == r
  {
    var l := LastSegment(s);
    assert |l| == |r|;
  }

  /** `BeforeQuery` is the only prefix without `?` that ends the string or precedes a `?`. */
  lemma BeforeQueryUnique(s: string, r: string)
    requires '?' !in r && |r| <= |s| && r == s[..|r|]
    requires |r| < |s| ==> s[|r|] == '?'
    ensures BeforeQuery(s) == r
  {
    var b := BeforeQuery(s);
    assert |b| == |r|;
  }

  /** With a long enough id the name is that id with the extension. */
  lemma FilenameOfLongId(link: string, id: string, now: nat)
    requires VideoId(link) == id && |id| >= MinIdLength
    ensures GenerateFilename(link, now) == id + Extension
  {
  }

  /** With a shorter id the name is the timestamp one. */
  lemma FilenameOfShortId(link: string, now: nat)
    requires |VideoId(link)| < MinIdLength
    ensures GenerateFilename(link, now) == "video_" + Decimal(now) + Extension
  {
  }

  /** Safe characters include neither separator. */
  lemma SafeHasNoSeparator(id: string)
    requires AllSafe(id)
    ensures '/' !in id && '?' !in id
  {
  }


  /** The id of `<base>/<segment>`, for a segment without `/`, comes from the segment alone. */
  lemma VideoIdOfSegment(base: string, seg: string)
    requires '/' !in seg
    ensures VideoId(base + "/" + seg) == KeepSafe(BeforeQuery(seg))
  {
    var link := base + "/" + seg;
    assert link[|link| - |seg|..] == seg;
    assert |seg| < |link| ==> link[|link| - |seg| - 1] == '/';
    LastSegmentUnique(link, seg);
  }

  /** A last segment whose part before `?` is a long safe id names the file after that id. */
  lemma FilenameOfSegment(base: string, seg: string, id: string, now: nat)
    requires '/' !in seg && BeforeQuery(seg) == id
    requires AllSafe(id) && |id| >= MinIdLength
    ensures GenerateFilename(base + "/" + seg, now) == id + Extension
  {
    VideoIdOfSegment(base, seg);
    KeepSafeOfSafe(id);
    FilenameOfLongId(base + "/" + seg, id, now);
  }

  /** An id and a query, both free of `/`, joined by `?` are free of `/`. */
  lemma QueriedSegment(id: string, query: string)
    requires '/' !in id && '/' !in query
    ensures '/' !in id + "?" + query
  {
  }


  /**
   * A link ending in `/<id>` or `/<id>?<query>` whose id is at least five safe
   * characters names the file `<id>.mp4`, whatever came before the last `/`.
   */
  lemma FilenameFromId(base: string, id: string, query: string, now: nat)
    requires AllSafe(id) && |id| >= MinIdLength && '/' !in query
    ensures GenerateFilename(base + "/" + id, now) == id + Extension
    ensures GenerateFilename(base + "/" + id + "?" + query, now) == id + Extension
  {
    SafeHasNoSeparator(id);
    BeforeQueryUnique(id, id);
    FilenameOfSegment(base, id, id, now);

    var seg := id + "?" + query;
    QueriedSegment(id, query);
    assert seg[..|id|] == id;
    BeforeQueryUnique(seg, id);
    assert base + "/" + id + "?" + query == base + "/" + seg;
    FilenameOfSegment(base, seg, id, now);
  }

  /** Any part of a string keeps at most as many safe characters as the whole. */
  lemma KeepSafeSlice(s: string, i: nat, j: nat)
    requires i <= j <= |s|
    ensures |KeepSafe(s[i..j])| <= |KeepSafe(s)|
  {
    assert s == s[..i] + s[i..j] + s[j..];
    KeepSafeAppend(s[..i] + s[i..j], s[j..]);
    KeepSafeAppend(s[..i], s[i..j]);
  }

  /**
   * When fewer than five safe characters follow the last `/`, the id is too short
   * and the name falls back to `video_<now>.mp4`.
   */
  lemma FilenameFromTimestamp(link: string, now: nat)
    requires |KeepSafe(LastSegment(link))| < MinIdLength
    ensures GenerateFilename(link, now) == "video_" + Decimal(now) + Extension
  {
    var seg := LastSegment(link);
    KeepSafeSlice(seg, 0, |BeforeQuery(seg)|);
    assert seg[0..|BeforeQuery(seg)|] == BeforeQuery(seg);
  }

  /** A typical CDN link, as found in a download page. */
  const CdnLink := "https://cdn.example/v1.mp4"

  lemma KeepSafeDropsDot()
    ensures KeepSafe("v1.mp4") == "v1mp4"
  {
  }

  lemma VideoIdOfCdnLink()
    ensures VideoId(CdnLink) == "v1mp4"
  {
    var seg := "v1.mp4";
    assert '/' !in seg && '?' !in seg;
    assert CdnLink == "https://cdn.example" + "/" + seg;
    VideoIdOfSegment("https://cdn.example", seg);
    BeforeQueryUnique(seg, seg);
    KeepSafeDropsDot();
  }

  /** The CDN link of a typical answer: the dot of `v1.mp4` is filtered out of the id. */
  lemma FilenameOfCdnLink(now: nat)
    ensures GenerateFilename(CdnLink, now) == "v1mp4.mp4"
  {
    assert "v1mp4" + Extension == "v1mp4.mp4";
    VideoIdOfCdnLink();
    FilenameOfLongId(CdnLink, "v1mp4", now);
  }
}

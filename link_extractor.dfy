/**
 * Choosing the download link among the anchors of the lookup service's answer
 * (`TikTokDownloader.parse_download_link`).  The markup is taken as already parsed:
 * one `Anchor` per `<a>` element, in document order.
 */
module LinkExtractor {

  import opened Wrappers
  import opened Text

  /**
   * An `<a>` element: its visible text (before stripping), its class tokens
   * (`get('class', [])`) and its `href` attribute when present.
   */
  datatype Anchor = Anchor(text: string, classes: seq<string>, href: Option<string>)

  const HdLabel: string := "Download MP4 HD"
  const SuccessClass: string := "dl-success"

  /** The two characters backslash and double quote, which the lookup service leaves in links. */
  const EscapedQuote: string := "\\\""

  /** The recognition rule: the HD label in the stripped text, or the success class. */
  predicate Qualifies(a: Anchor)
  {
    Contains(Strip(a.text), HdLabel) || SuccessClass in a.classes
  }

  /** A qualifying anchor is taken only when its `href` is present and non-empty. */
  predicate Usable(a: Anchor)
  {
    Qualifies(a) && a.href.Some? && a.href.value != []
  }

  /** The link handed on for an anchor: its `href` with every `\"` removed. */
  function Cleaned(a: Anchor): (r: string)
    requires a.href.Some?
    ensures |r| <= |a.href.value|
  {
    RemoveAll(a.href.value, EscapedQuote)
  }

  /** Anchor `i` is the first usable one in document order. */
  predicate FirstUsableAt(anchors: seq<Anchor>, i: int)
  {
    0 <= i < |anchors| && Usable(anchors[i]) && forall j :: 0 <= j < i ==> !Usable(anchors[j])
  }

  /** The selection rule as a function, for use by the rest of the model. */
  function FirstLink(anchors: seq<Anchor>): Option<string>
    decreases |anchors|
  {
    if anchors == [] then None
    else if Usable(anchors[0]) then Some(Cleaned(anchors[0]))
    else FirstLink(anchors[1..])
  }

  /** `FirstLink` finds nothing exactly when no anchor is usable. */
  lemma {:induction false} FirstLinkNone(anchors: seq<Anchor>)
    ensures FirstLink(anchors).None? <==> forall i :: 0 <= i < |anchors| ==> !Usable(anchors[i])
    decreases |anchors|
  {
    if anchors != [] && !Usable(anchors[0]) {
      FirstLinkNone(anchors[1..]);
      if forall i :: 0 <= i < |anchors| - 1 ==> !Usable(anchors[1..][i]) {
        forall i | 0 <= i < |anchors| ensures !Usable(anchors[i]) {
          if i > 0 {
            assert anchors[i] == anchors[1..][i - 1];
          }
        }
      } else {
        var i :| 0 <= i < |anchors| - 1 && Usable(anchors[1..][i]);
        assert Usable(anchors[i + 1]);
      }
    }
  }

  /**
   * When anchor `i` is the first usable one, `FirstLink` is its cleaned `href`:
   * earlier qualifying anchors whose `href` is missing or empty are passed over.
   */
  lemma {:induction false} FirstLinkAt(anchors: seq<Anchor>, i: int)
    requires FirstUsableAt(anchors, i)
    ensures FirstLink(anchors) == Some(Cleaned(anchors[i]))
    decreases |anchors|
  {
    if i > 0 {
      var rest := anchors[1..];
      assert !Usable(anchors[0]);
      assert FirstLink(anchors) == FirstLink(rest);
      assert rest[i - 1] == anchors[i];
      forall j | 0 <= j < i - 1
        ensures !Usable(rest[j])
      {
        assert rest[j] == anchors[j + 1];
      }
      assert FirstUsableAt(rest, i - 1);
      FirstLinkAt(rest, i - 1);
    }
  }

  /** `FirstLinkAt` for every position at once. */
  lemma FirstLinkAtAny(anchors: seq<Anchor>)
    ensures forall i :: FirstUsableAt(anchors, i) ==> FirstLink(anchors) == Some(Cleaned(anchors[i]))
  {
    forall i | FirstUsableAt(anchors, i)
      ensures FirstLink(anchors) == Some(Cleaned(anchors[i]))
    {
      FirstLinkAt(anchors, i);
    }
  }

  /** Whatever `FirstLink` finds comes from the first usable anchor. */
  lemma {:induction false} FirstLinkFound(anchors: seq<Anchor>)
    requires FirstLink(anchors).Some?
    ensures exists i :: FirstUsableAt(anchors, i) && FirstLink(anchors) == Some(Cleaned(anchors[i]))
    decreases |anchors|
  {
    if Usable(anchors[0]) {
      assert FirstUsableAt(anchors, 0);
    } else {
      var rest := anchors[1..];
      assert FirstLink(anchors) == FirstLink(rest);
      FirstLinkFound(rest);
      var k :| FirstUsableAt(rest, k) && FirstLink(rest) == Some(Cleaned(rest[k]));
      assert rest[k] == anchors[k + 1];
      forall j | 0 <= j < k + 1
        ensures !Usable(anchors[j])
      {
        if j > 0 {
          assert anchors[j] == rest[j - 1];
        }
      }
      assert FirstUsableAt(anchors, k + 1);
    }
  }

  /**
   * `parse_download_link`: scan the anchors in order and return at the first usable
   * one; `None` when the scan ends without one.
   */
  method ParseDownloadLink(anchors: seq<Anchor>) returns (link: Option<string>)
    ensures link == FirstLink(anchors)
    ensures link.None? <==> forall i :: 0 <= i < |anchors| ==> !Usable(anchors[i])
    ensures link.Some? ==> exists i :: FirstUsableAt(anchors, i) && link.value == Cleaned(anchors[i])
  {
    for i := 0 to |anchors|
      invariant forall j :: 0 <= j < i ==> !Usable(anchors[j])
      invariant FirstLink(anchors) == FirstLink(anchors[i..])
    {
      var tag := anchors[i];
      if Contains(Strip(tag.text), HdLabel) || SuccessClass in tag.classes {
        var url := tag.href;
        if url.Some? && url.value != [] {
          assert FirstUsableAt(anchors, i);
          return Some(RemoveAll(url.value, EscapedQuote));
        }
      }
      assert anchors[i..][1..] == anchors[i + 1..];
    }
    return None;
  }

  /** `\"` itself: a usable anchor whose cleaned link is empty. */
  lemma CleanedCanBeEmpty()
    ensures Cleaned(Anchor("", [SuccessClass], Some(EscapedQuote))) == []
  {
  }

  /**
   * Removal can create a new `\"`: `\\""` loses the middle pair and what is left is
   * `\"`, so the cleaned link is not free of the sequence.
   */
  lemma CleanedMayKeepEscapedQuote()
    ensures Cleaned(Anchor("", [SuccessClass], Some("\\\\\"\""))) == EscapedQuote
  {
    var h := "\\\\\"\"";
    assert h[1] == '\\' && h[..2][1] == h[1];
    assert h[1..][..2] == EscapedQuote;
    assert h[1..][2..] == "\"";
  }
}

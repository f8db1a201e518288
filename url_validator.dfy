/**
 * The URL check the downloader runs before any network call
 * (`TikTokDownloader.validate_tiktok_url`).
 */
module UrlValidator {

  import opened Text

  /** The domain substrings the validator looks for, in the order it tries them. */
  const ValidDomains: seq<string> := ["tiktok.com", "www.tiktok.com", "m.tiktok.com", "vm.tiktok.com"]

  /**
   * What the check comes down to: a non-empty URL with an `https://` or `http://`
   * prefix (case-sensitive) whose lowercased text contains `tiktok.com` somewhere,
   * in the host or anywhere else.
   */
  ghost predicate IsTiktokUrl(url: string)
  {
    url != [] && (StartsWith(url, "https://") || StartsWith(url, "http://")) && Contains(Lower(url), "tiktok.com")
  }

  /** Every listed domain ends in `tiktok.com`, so finding any of them finds `tiktok.com`. */
  lemma {:induction false} AnyDomainMeansTiktok(s: string)
    ensures (exists i :: 0 <= i < |ValidDomains| && Contains(s, ValidDomains[i])) <==> Contains(s, "tiktok.com")
  {
    if exists i :: 0 <= i < |ValidDomains| && Contains(s, ValidDomains[i]) {
      var i :| 0 <= i < |ValidDomains| && Contains(s, ValidDomains[i]);
      if i == 1 {
        assert ValidDomains[i] == "www." + "tiktok.com";
        ContainsSuffix(s, "www.", "tiktok.com");
      } else if i == 2 {
        assert ValidDomains[i] == "m." + "tiktok.com";
        ContainsSuffix(s, "m.", "tiktok.com");
      } else if i == 3 {
        assert ValidDomains[i] == "vm." + "tiktok.com";
        ContainsSuffix(s, "vm.", "tiktok.com");
      }
    }
    if Contains(s, "tiktok.com") {
      assert Contains(s, ValidDomains[0]);
    }
  }

  /**
   * `validate_tiktok_url(url)`: empty input, a missing scheme prefix and a missing
   * domain are each a rejection; the result is exactly `IsTiktokUrl(url)`.
   */
  function ValidateTiktokUrl(url: string): (ok: bool)
    ensures ok <==> IsTiktokUrl(url)
  {
    AnyDomainMeansTiktok(Lower(url));
    if url == [] then false
    else if !(StartsWith(url, "https://") || StartsWith(url, "http://")) then false
    else exists i :: 0 <= i < |ValidDomains| && Contains(Lower(url), ValidDomains[i])
  }

  /** A URL from the platform with a lowercase scheme passes, whatever the case of its host. */
  lemma AcceptsMixedCaseHost()
    ensures ValidateTiktokUrl("https://WWW.TikTok.com/@user/video/123456789")
  {
    var url := "https://WWW.TikTok.com/@user/video/123456789";
    assert url[..8] == "https://" by {
      forall k | 0 <= k < 8 ensures url[..8][k] == "https://"[k] { assert url[..8][k] == url[k]; }
    }
    assert Lower(url)[12..22] == "tiktok.com" by {
      forall k | 12 <= k < 22 ensures Lower(url)[k] == "tiktok.com"[k - 12] { }
    }
    assert OccursAt(Lower(url), "tiktok.com", 12);
    ContainsAt(Lower(url), "tiktok.com");
  }

  /** Every URL on the platform's main host passes, whatever its path. */
  lemma AcceptsPlatformUrl(path: string)
    ensures ValidateTiktokUrl("https://www.tiktok.com" + path)
  {
    var url := "https://www.tiktok.com" + path;
    assert url[..8] == "https://" by {
      forall k | 0 <= k < 8 ensures url[..8][k] == "https://"[k] { assert url[..8][k] == url[k]; }
    }
    assert Lower(url)[12..22] == "tiktok.com" by {
      forall k | 12 <= k < 22 ensures Lower(url)[k] == "tiktok.com"[k - 12] {
        assert Lower(url)[k] == LowerChar(url[k]);
      }
    }
    assert OccursAt(Lower(url), "tiktok.com", 12);
    ContainsAt(Lower(url), "tiktok.com");
  }

  /** The domain may sit in the path or query: a foreign host still passes. */
  lemma AcceptsDomainOutsideHost()
    ensures ValidateTiktokUrl("https://example.org/?next=tiktok.com")
  {
    var url := "https://example.org/?next=tiktok.com";
    assert url[..8] == "https://";
    assert Lower(url)[26..36] == "tiktok.com" by {
      forall k | 26 <= k < 36 ensures Lower(url)[k] == "tiktok.com"[k - 26] { }
    }
    assert OccursAt(Lower(url), "tiktok.com", 26);
    ContainsAt(Lower(url), "tiktok.com");
  }

  /** The scheme test is case-sensitive, unlike the domain test. */
  lemma RejectsUppercaseScheme()
    ensures !ValidateTiktokUrl("HTTPS://www.tiktok.com/@user/video/1")
  {
    var url := "HTTPS://www.tiktok.com/@user/video/1";
    assert url[0] == 'H';
    assert url[..8][0] == url[0] && url[..7][0] == url[0];
  }

  /** A URL that mentions no `k` at all cannot contain the domain. */
  lemma RejectsForeignHost()
    ensures !ValidateTiktokUrl("https://example.org/watch")
  {
    var url := "https://example.org/watch";
    assert 'k' !in Lower(url) by {
      forall j | 0 <= j < |url| ensures Lower(url)[j] != 'k' {
        assert LowerChar(url[j]) == Lower(url)[j];
      }
    }
    AbsentChar(Lower(url), "tiktok.com", 2);
  }
}

/** `Resources::format_resource_url`: trim the URL, then delete every
    `https://`, then every `http://`, then every `www.`. */
module Urls {
  import opened Strings

  /** The three texts deleted, in the order they are deleted. */
  const Https := "https://"
  const Http := "http://"
  const Www := "www."

  /** Every step only removes text, so the result is never longer than
      the URL. */
  function FormatResourceUrl(url: string): (formatted: string)
    ensures |formatted| <= |url|
  {
    var trimmed := Trim(url);
    var noHttps := StrReplace(Https, "", trimmed);
    var noHttp := StrReplace(Http, "", noHttps);
    StrReplaceDeleteShrinks(Https, trimmed);
    StrReplaceDeleteShrinks(Http, noHttps);
    StrReplaceDeleteShrinks(Www, noHttp);
    StrReplace(Www, "", noHttp)
  }

  /** A bare host name is `Clean` when it has no trim character at either
      end and none of the three deleted texts occurs in it. */
  predicate Clean(host: string) {
    && (host == [] || (!IsTrimChar(host[0]) && !IsTrimChar(host[|host| - 1])))
    && !Occurs(Https, host) && !Occurs(Http, host) && !Occurs(Www, host)
  }

  /** No occurrence of `p` starts inside `pre` in `pre + s`, and none occurs
      in `s`: then `p` does not occur in `pre + s`. */
  lemma NoOccurrenceAcross(p: string, pre: string, s: string)
    requires forall i :: 0 <= i < |pre| ==> !OccursAt(p, pre + s, i)
    requires !Occurs(p, s)
    ensures !Occurs(p, pre + s)
  {
    if Occurs(p, pre + s) {
      var i :| 0 <= i <= |pre + s| - |p| && OccursAt(p, pre + s, i);
      assert i >= |pre|;
      assert (pre + s)[i..i + |p|] == s[i - |pre|..i - |pre| + |p|];
      assert OccursAt(p, s, i - |pre|);
    }
  }

  /** `p` cannot start at a position of `pre` whose character differs from
      `p`'s at the same offset. */
  lemma MismatchAt(p: string, pre: string, s: string, i: nat, d: nat)
    requires i + d < |pre| && d < |p| && pre[i + d] != p[d]
    ensures !OccursAt(p, pre + s, i)
  {
  }

  /** A clean host is returned unchanged. */
  lemma CleanHostUnchanged(host: string)
    requires Clean(host)
    ensures FormatResourceUrl(host) == host
  {
    TrimUntouched(host);
    StrReplaceWithoutOccurrence(Https, "", host);
    StrReplaceWithoutOccurrence(Http, "", host);
    StrReplaceWithoutOccurrence(Www, "", host);
  }

  /** `www.` followed by a clean host: the deletions of the two schemes
      leave it alone and the deletion of `www.` leaves the host. */
  lemma WwwHost(host: string)
    requires Clean(host)
    ensures !Occurs(Https, Www + host) && !Occurs(Http, Www + host)
    ensures FormatResourceUrl(Www + host) == host
  {
    var s := Www + host;
    forall i | 0 <= i < |Www| ensures !OccursAt(Https, s, i) && !OccursAt(Http, s, i) {
      MismatchAt(Https, Www, host, i, 0);
      MismatchAt(Http, Www, host, i, 0);
    }
    NoOccurrenceAcross(Https, Www, host);
    NoOccurrenceAcross(Http, Www, host);
    assert s[0] == 'w';
    if host == [] {
      assert s[|s| - 1] == '.';
    } else {
      assert s[|s| - 1] == host[|host| - 1];
    }
    TrimUntouched(s);
    StrReplaceWithoutOccurrence(Https, "", s);
    StrReplaceWithoutOccurrence(Http, "", s);
    StrReplaceLeading(Www, host);
    StrReplaceWithoutOccurrence(Www, "", host);
  }

  /** A leading `https://` in front of a trimmed URL is simply dropped. */
  lemma LeadingHttpsDropped(rest: string)
    requires rest != [] && !IsTrimChar(rest[0]) && !IsTrimChar(rest[|rest| - 1])
    ensures FormatResourceUrl(Https + rest) == FormatResourceUrl(rest)
  {
    var s := Https + rest;
    TrimUntouched(rest);
    assert Trim(s) == s by {
      assert s[0] == 'h';
      assert s[|s| - 1] == rest[|rest| - 1];
      TrimUntouched(s);
    }
    StrReplaceLeading(Https, rest);
  }

  /** `https://www.` in front of a clean host is stripped down to the host. */
  lemma HttpsWwwHost(host: string)
    requires Clean(host)
    ensures FormatResourceUrl(Https + Www + host) == host
  {
    var rest := Www + host;
    WwwHost(host);
    assert rest[0] == 'w';
    if host == [] {
      assert rest[|rest| - 1] == '.';
    } else {
      assert rest[|rest| - 1] == host[|host| - 1];
    }
    LeadingHttpsDropped(rest);
    assert Https + Www + host == Https + rest;
  }

  /** Whitespace around a URL does not change the result: formatting the
      trimmed URL gives what formatting the URL gives. */
  lemma SurroundingWhitespaceIgnored(url: string)
    ensures FormatResourceUrl(Trim(url)) == FormatResourceUrl(url)
  {
    TrimIdempotent(url);
  }

  /** `http://` in front of a clean host is stripped down to the host. */
  lemma HttpHost(host: string)
    requires Clean(host)
    ensures FormatResourceUrl(Http + host) == host
  {
    var s := Http + host;
    forall i | 0 <= i < |Http| ensures !OccursAt(Https, s, i) {
      if i == 0 {
        MismatchAt(Https, Http, host, 0, 4);
      } else {
        MismatchAt(Https, Http, host, i, 0);
      }
    }
    NoOccurrenceAcross(Https, Http, host);
    assert s[0] == 'h';
    if host == [] {
      assert s[|s| - 1] == '/';
    } else {
      assert s[|s| - 1] == host[|host| - 1];
    }
    TrimUntouched(s);
    StrReplaceWithoutOccurrence(Https, "", s);
    StrReplaceLeading(Http, host);
    StrReplaceWithoutOccurrence(Http, "", host);
    StrReplaceWithoutOccurrence(Www, "", host);
  }

  /** `http://www.` in front of a clean host is stripped down to the host. */
  lemma HttpWwwHost(host: string)
    requires Clean(host)
    ensures FormatResourceUrl(Http + Www + host) == host
  {
    var rest := Www + host;
    var s := Http + rest;
    assert Http + Www + host == s;
    WwwHost(host);
    forall i | 0 <= i < |Http| ensures !OccursAt(Https, s, i) {
      if i == 0 {
        MismatchAt(Https, Http, rest, 0, 4);
      } else {
        MismatchAt(Https, Http, rest, i, 0);
      }
    }
    NoOccurrenceAcross(Https, Http, rest);
    assert s[0] == 'h';
    if host == [] {
      assert s[|s| - 1] == '.';
    } else {
      assert s[|s| - 1] == host[|host| - 1];
    }
    TrimUntouched(s);
    StrReplaceWithoutOccurrence(Https, "", s);
    StrReplaceLeading(Http, rest);
    StrReplaceWithoutOccurrence(Http, "", rest);
    StrReplaceLeading(Www, host);
    StrReplaceWithoutOccurrence(Www, "", host);
  }
}

/** The installer's tenant API URL. */
module TenantUrl {
  import opened Text

  /** The base URL without spaces, trailing slashes or an earlier tenant suffix. */
  function Stem(base: string): string {
    var trimmed := TrimSlashes(TrimSpace(base));
    var i := LastMarker(trimmed, |trimmed|);
    if i >= 0 then TrimSlashes(trimmed[..i]) else trimmed
  }

  function TenantApiUrl(base: string, tenant: string): string {
    if TrimSlashes(TrimSpace(base)) == "" || IsBlank(tenant) then ""
    else Stem(base) + "/t/" + TrimSpace(tenant)
  }

  method ComputeTenantApiUrl(base: string, tenant: string) returns (url: string)
    ensures url == TenantApiUrl(base, tenant)
  {
    var b := TrimSlashes(TrimSpace(base));
    var t := TrimSpace(tenant);
    if b == "" || t == "" {
      return "";
    }
    var i := LastMarker(b, |b|);
    if i >= 0 {
      b := TrimSlashes(b[..i]);
    }
    return b + "/t/" + t;
  }

  /** No tenant suffix starts anywhere in s. */
  predicate HasNoSuffix(s: string) {
    forall i, j :: 0 <= i <= j <= |s| ==> s[i..j] != "/t/"
  }

  lemma SuffixOfMarker(s: string, i: nat)
    requires MarkerAt(s, i)
    ensures s[i..i + 3] == "/t/"
  {
  }

  lemma NoSuffixNoMarker(s: string)
    requires HasNoSuffix(s)
    ensures LastMarker(s, |s|) == -1
  {
    forall i: nat | i <= |s| ensures !MarkerAt(s, i) {
      if MarkerAt(s, i) {
        SuffixOfMarker(s, i);
      }
    }
  }

  /** The first installation: a base without a tenant suffix gets one, after its spaces and trailing slashes go. */
  lemma FirstInstallation(base: string, tenant: string)
    requires TrimSlashes(TrimSpace(base)) != "" && HasNoSuffix(TrimSlashes(TrimSpace(base))) && TrimSpace(tenant) != ""
    ensures TenantApiUrl(base, tenant) == TrimSlashes(TrimSpace(base)) + "/t/" + TrimSpace(tenant)
  {
    NoSuffixNoMarker(TrimSlashes(TrimSpace(base)));
  }

  /** There is no URL exactly if the base, without spaces and trailing slashes, or the tenant is empty. */
  lemma NoUrlExactly(base: string, tenant: string)
    ensures TenantApiUrl(base, tenant) == "" <==> TrimSlashes(TrimSpace(base)) == "" || TrimSpace(tenant) == ""
  {
  }

  /** The stem does not end in a slash, and starts with no space. */
  lemma StemShape(base: string)
    ensures var s := Stem(base);
      s == "" || (!IsSpace(s[0]) && s[|s| - 1] != '/')
  {
    TrimSpaceTrims(base);
    var space := TrimSpace(base);
    TrimSlashesEnds(space);
    var trimmed := TrimSlashes(space);
    var i := LastMarker(trimmed, |trimmed|);
    if i >= 0 {
      TrimSlashesEnds(trimmed[..i]);
    }
    assert Stem(base) <= space;
  }

  predicate SlashFree(s: string) {
    '/' !in s
  }

  /** The stem of a URL built on a stem is that stem. */
  lemma StemOfUrl(stem: string, tenant: string)
    requires stem == "" || (!IsSpace(stem[0]) && stem[|stem| - 1] != '/')
    requires tenant != "" && IsTrimmed(tenant) && SlashFree(tenant)
    ensures Stem(stem + "/t/" + tenant) == stem
    ensures TrimSlashes(TrimSpace(stem + "/t/" + tenant)) != ""
  {
    var url := stem + "/t/" + tenant;
    assert url[|url| - 1] == tenant[|tenant| - 1] && tenant[|tenant| - 1] in tenant;
    assert url[0] == if stem == "" then '/' else stem[0];
    TrimmedStays(url);
    assert TrimSlashes(url) == url;
    LastMarkerOfUrl(stem, tenant);
    assert url[..|stem|] == stem;
    assert TrimSlashes(stem) == stem;
  }

  /** The suffix just added is the last one. */
  lemma LastMarkerOfUrl(stem: string, tenant: string)
    requires SlashFree(tenant)
    ensures var url := stem + "/t/" + tenant; LastMarker(url, |url|) == |stem|
  {
    var url := stem + "/t/" + tenant;
    assert MarkerAt(url, |stem|);
    assert forall k :: |stem| + 3 <= k < |url| ==> url[k] in tenant;
    assert forall j: nat :: |stem| < j <= |url| ==> !MarkerAt(url, j);
  }

  /** Building the URL again, for the same tenant or another, replaces the suffix instead of repeating it. */
  lemma Reinstall(base: string, tenant1: string, tenant2: string)
    requires !IsBlank(tenant1) && SlashFree(tenant1)
    ensures TenantApiUrl(TenantApiUrl(base, tenant1), tenant2) == TenantApiUrl(base, tenant2)
  {
    if TrimSlashes(TrimSpace(base)) != "" {
      StemShape(base);
      TrimSpaceTrims(tenant1);
      StemOfUrl(Stem(base), TrimSpace(tenant1));
    }
  }
}

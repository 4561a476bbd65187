/** Shared read-only data: the free-webmail domains that never name an employer. */
module Constants {
  import opened Text

  // The providers of `WEBMAIL_DOMAINS`, grouped as the source table groups them.
  const Google: set<string> := {"gmail.com", "googlemail.com"}
  const Microsoft: set<string> := {
    "hotmail.com", "hotmail.co.uk", "hotmail.de", "hotmail.es", "hotmail.fr", "hotmail.it",
    "outlook.com", "live.com"}
  const Yahoo: set<string> := {"yahoo.com", "ymail.com"}
  const Apple: set<string> := {"icloud.com", "mac.com", "me.com"}
  const AolVerizon: set<string> := {"aol.com", "verizon.net"}
  const PrivacyFocused: set<string> := {"protonmail.com", "proton.me", "tutanota.com", "tuta.com", "hushmail.com"}
  const OtherProviders: set<string> := {"hey.com", "qq.com", "zoho.com", "fastmail.com"}

  /** `WEBMAIL_DOMAINS`: consumer mail providers, skipped by company-from-email inference. */
  const WebmailDomains: set<string> := Google + Microsoft + Yahoo + Apple + AolVerizon + PrivacyFocused + OtherProviders

  lemma GroupSizes()
    ensures |Google| == 2 && |Microsoft| == 8 && |Yahoo| == 2 && |Apple| == 3
    ensures |AolVerizon| == 2 && |PrivacyFocused| == 5 && |OtherProviders| == 4
  {
  }

  lemma GoogleDisjoint()
    ensures Google !! Microsoft && Google !! Yahoo && Google !! Apple && Google !! AolVerizon
    ensures Google !! PrivacyFocused && Google !! OtherProviders
  {
  }

  lemma MicrosoftDisjoint()
    ensures Microsoft !! Yahoo && Microsoft !! Apple && Microsoft !! AolVerizon
    ensures Microsoft !! PrivacyFocused && Microsoft !! OtherProviders
  {
  }

  lemma SmallGroupsDisjoint()
    ensures Yahoo !! Apple && Yahoo !! AolVerizon && Yahoo !! PrivacyFocused && Yahoo !! OtherProviders
    ensures Apple !! AolVerizon && Apple !! PrivacyFocused && Apple !! OtherProviders
    ensures AolVerizon !! PrivacyFocused && AolVerizon !! OtherProviders
    ensures PrivacyFocused !! OtherProviders
  {
  }

  /** The table has exactly 26 entries: the groups have 2, 8, 2, 3, 2, 5 and 4 and share none. */
  lemma WebmailDomainsCount()
    ensures |WebmailDomains| == 26
  {
    GroupSizes();
    GoogleDisjoint();
    MicrosoftDisjoint();
    SmallGroupsDisjoint();
    var a := Google + Microsoft;
    var b := a + Yahoo;
    var c := b + Apple;
    var d := c + AolVerizon;
    var e := d + PrivacyFocused;
    assert |a| == 10;
    assert |b| == 12;
    assert |c| == 15;
    assert |d| == 17;
    assert |e| == 22;
    assert WebmailDomains == e + OtherProviders;
  }

  /** It holds both Google domains and the six national Hotmail domains. */
  lemma WebmailDomainsMembers()
    ensures "gmail.com" in WebmailDomains && "googlemail.com" in WebmailDomains
    ensures "hotmail.com" in WebmailDomains && "hotmail.co.uk" in WebmailDomains
    ensures "hotmail.de" in WebmailDomains && "hotmail.es" in WebmailDomains
    ensures "hotmail.fr" in WebmailDomains && "hotmail.it" in WebmailDomains
  {
  }

  /** `d` has no upper-case ASCII letter and has a dot. */
  predicate LowerDotted(d: string)
  {
    (forall i :: 0 <= i < |d| ==> !('A' <= d[i] <= 'Z')) && '.' in d
  }

  lemma GoogleLowerDotted()
    ensures forall d :: d in Google ==> LowerDotted(d)
  {
  }

  lemma MicrosoftLowerDotted()
    ensures forall d :: d in Microsoft ==> LowerDotted(d)
  {
  }

  lemma YahooLowerDotted()
    ensures forall d :: d in Yahoo ==> LowerDotted(d)
  {
  }

  lemma AppleLowerDotted()
    ensures forall d :: d in Apple ==> LowerDotted(d)
  {
  }

  lemma AolVerizonLowerDotted()
    ensures forall d :: d in AolVerizon ==> LowerDotted(d)
  {
  }

  lemma PrivacyFocusedLowerDotted()
    ensures forall d :: d in PrivacyFocused ==> LowerDotted(d)
  {
  }

  lemma OtherProvidersLowerDotted()
    ensures forall d :: d in OtherProviders ==> LowerDotted(d)
  {
  }

  /**
   * Every entry is already lower-case and has a dot, so a caller that lower-cases
   * a domain before the membership test can match every entry.
   */
  lemma WebmailDomainsLowerCase()
    ensures forall d :: d in WebmailDomains ==> Lower(d) == d && '.' in d
  {
    GoogleLowerDotted();
    MicrosoftLowerDotted();
    YahooLowerDotted();
    AppleLowerDotted();
    AolVerizonLowerDotted();
    PrivacyFocusedLowerDotted();
    OtherProvidersLowerDotted();
    forall d | d in WebmailDomains ensures Lower(d) == d && '.' in d {
      assert LowerDotted(d);
    }
  }
}

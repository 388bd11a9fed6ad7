/**
 The site title of www/title.js: the host name up to its first `.`, with
 every `-` shown as a space. Reading the host from the browser and writing
 the page are left to the caller; this is the string transform alone.
 */
module Title {

  /**
   The first `.`-separated token of `host`: the longest prefix without a
   `.`, which ends at the first `.` or at the end of the host.
   */
  function FirstToken(host: string): (t: string)
    ensures t <= host
    ensures '.' !in t
    ensures |t| == |host| || host[|t|] == '.'
  {
    if |host| == 0 || host[0] == '.' then []
    else [host[0]] + FirstToken(host[1..])
  }

  /** A dash shows as a space; every other character shows as itself. */
  function Shown(ch: char): char {
    if ch == '-' then ' ' else ch
  }

  /** Replaces every `-` in `s` by a space, position by position. */
  function DashesToSpaces(s: string): (r: string)
    ensures |r| == |s|
    ensures forall i :: 0 <= i < |s| ==> r[i] == Shown(s[i])
    ensures '-' !in r
  {
    if |s| == 0 then []
    else [Shown(s[0])] + DashesToSpaces(s[1..])
  }

  /**
   The title shown for `host`: as long as the host's first token, free of
   dashes and dots, and equal to that token with each dash turned into a
   space.
   */
  function SiteTitle(host: string): (title: string)
    ensures |title| == |FirstToken(host)|
    ensures forall i :: 0 <= i < |title| ==> title[i] == Shown(host[i])
    ensures '-' !in title
    ensures '.' !in title
  {
    var token := FirstToken(host);
    var title := DashesToSpaces(token);
    assert forall i :: 0 <= i < |token| ==> token[i] == host[i];
    title
  }

  /** A host with neither dots nor dashes is shown as it is. */
  lemma {:induction false} PlainHostIsItsOwnTitle(host: string)
    requires '.' !in host && '-' !in host
    ensures SiteTitle(host) == host
  {
    if |host| > 0 {
      PlainHostIsItsOwnTitle(host[1..]);
      assert FirstToken(host) == [host[0]] + FirstToken(host[1..]);
    }
  }

  /** Taking the title of a title changes nothing. */
  lemma TitleIsIdempotent(host: string)
    ensures SiteTitle(SiteTitle(host)) == SiteTitle(host)
  {
    PlainHostIsItsOwnTitle(SiteTitle(host));
  }

  /** Only the first token counts: whatever follows the first dot is ignored. */
  lemma {:induction false} TitleIgnoresDomain(name: string, rest: string)
    requires '.' !in name
    ensures SiteTitle(name + "." + rest) == DashesToSpaces(name)
  {
    FirstTokenOfDotted(name, rest);
  }

  /** A dot-free name followed by a dot is the host's first token. */
  lemma {:induction false} FirstTokenOfDotted(name: string, rest: string)
    requires '.' !in name
    ensures FirstToken(name + "." + rest) == name
  {
    if |name| > 0 {
      assert (name + "." + rest)[1..] == name[1..] + "." + rest;
      FirstTokenOfDotted(name[1..], rest);
      assert name == [name[0]] + name[1..];
    }
  }
}

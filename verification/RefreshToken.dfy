/**
 The refresh token: user id, device id and a fresh uuid joined with colons,
 encoded as UTF-8 and then as base64; and the parsing both `refreshTokens` and
 `logout` start with.
 */
module RefreshToken {
  import opened Wrappers
  import Utf8
  import Base64
  import Strings

  datatype Parts = Parts(user: string, device: string, uuid: string)

  function Raw(p: Parts): string { p.user + [':'] + p.device + [':'] + p.uuid }

  function Mint(p: Parts): string { Base64.Encode(Utf8.Encode(Raw(p))) }

  function Text(token: string): string { Utf8.Decode(Base64.Decode(token)) }

  /** The three parts, or None where the source finds another number of parts. */
  function Parse(token: string): Option<Parts> {
    var parts := Strings.Split(Text(token), ':');
    if |parts| == 3 then Some(Parts(parts[0], parts[1], parts[2])) else None
  }

  predicate Plain(s: string) { ':' !in s }

  predicate PlainParts(p: Parts) { Plain(p.user) && Plain(p.device) && Plain(p.uuid) }

  /** A minted token reads back as the three parts with colons between them. */
  lemma TextOfMint(p: Parts)
    ensures Text(Mint(p)) == p.user + ":" + p.device + ":" + p.uuid
  {
    Base64.RoundTrip(Utf8.Encode(Raw(p)));
    Utf8.RoundTrip(Raw(p));
  }

  /** A token, however written, parses to the parts exactly when it reads as the three with colons between them. */
  lemma ParseExact(token: string, p: Parts)
    ensures Parse(token) == Some(p) <==> PlainParts(p) && Text(token) == p.user + ":" + p.device + ":" + p.uuid
  {
    var text := p.user + [':'] + p.device + [':'] + p.uuid;
    if PlainParts(p) && Text(token) == text {
      ThreeParts(p);
    }
    if Parse(token) == Some(p) {
      Strings.PartsArePlain(Text(token), ':');
      Strings.JoinSplit(Text(token), ':');
      JoinThree(Strings.Split(Text(token), ':'));
    }
  }

  lemma ThreeParts(p: Parts)
    requires PlainParts(p)
    ensures Strings.Split(p.user + [':'] + p.device + [':'] + p.uuid, ':') == [p.user, p.device, p.uuid]
  {
    Strings.SplitAt(p.user + [':'] + p.device, p.uuid, ':');
    Strings.SplitAt(p.user, p.device, ':');
    Strings.SplitPlain(p.user, ':');
    Strings.SplitPlain(p.device, ':');
    Strings.SplitPlain(p.uuid, ':');
  }

  lemma JoinThree(parts: seq<string>)
    requires |parts| == 3
    ensures Strings.Join(parts, ':') == parts[0] + [':'] + parts[1] + [':'] + parts[2]
  {
    var rest := parts[1..];
    assert rest[1..] == [parts[2]];
    assert Strings.Join(rest[1..], ':') == parts[2];
    assert Strings.Join(rest, ':') == parts[1] + [':'] + parts[2];
    assert parts[0] + [':'] + (parts[1] + [':'] + parts[2]) == parts[0] + [':'] + parts[1] + [':'] + parts[2];
  }

  /** Parsing a minted token gives back exactly what went in if and only if no part holds a colon. */
  lemma ParseMint(p: Parts)
    ensures Parse(Mint(p)) == Some(p) <==> PlainParts(p)
    ensures Parse(Mint(p)).Some? <==> PlainParts(p)
  {
    TextOfMint(p);
    Strings.SplitAt(p.user + [':'] + p.device, p.uuid, ':');
    Strings.SplitAt(p.user, p.device, ':');
    Strings.PartsArePlain(p.user, ':');
    Strings.PartsArePlain(p.device, ':');
    Strings.PartsArePlain(p.uuid, ':');
    if PlainParts(p) {
      Strings.SplitPlain(p.user, ':');
      Strings.SplitPlain(p.device, ':');
      Strings.SplitPlain(p.uuid, ':');
    }
  }

  /** Tokens minted from different parts differ. */
  lemma MintInjective(p: Parts, q: Parts)
    requires PlainParts(p) && PlainParts(q) && Mint(p) == Mint(q)
    ensures p == q
  {
    ParseMint(p);
    ParseMint(q);
  }

  /** The ids taken from a parsed token never hold a colon. */
  lemma ParsedPartsArePlain(token: string)
    requires Parse(token).Some?
    ensures PlainParts(Parse(token).value)
  {
    Strings.PartsArePlain(Text(token), ':');
  }

  /** The key a live token is stored under. */
  function RefreshKey(user: string, device: string): string { "refresh:" + (user + [':'] + device) }

  /** For users without colons two stored keys are equal only for the same user and device. */
  lemma RefreshKeyInjective(u: string, d: string, u': string, d': string)
    requires Plain(u) && Plain(u')
    requires RefreshKey(u, d) == RefreshKey(u', d')
    ensures u == u' && d == d'
  {
    assert RefreshKey(u, d)[8..] == u + [':'] + d;
    assert RefreshKey(u', d')[8..] == u' + [':'] + d';
    Strings.FirstSeparator(u, d, u', d', ':');
  }
}

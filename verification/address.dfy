/**
 * Address detection (`detectAddress`): the candidate socket paths, and the
 * choice of the first one that the accessibility probe accepts. The probe
 * (`isSocketAccessible`, a filesystem check) is the parameter `accessible`.
 */
module Address {

  /** The socket paths tried when no address is given, in priority order. */
  const WellKnownAddresses: seq<string> := [
    "/run/containerd/containerd.sock",
    "/var/run/docker/containerd/containerd.sock"
  ]

  /** The scheme prefix removed from an explicit address. */
  const UnixScheme: string := "unix://"

  /** The result of address detection: a path, or "cannot detect" failure. */
  datatype Detection = Found(address: string) | NoAddressFound

  /** `strings.TrimPrefix`: `s` without `prefix` when it starts with it. */
  function TrimPrefix(s: string, prefix: string): (r: string)
    ensures prefix <= s ==> prefix + r == s
    ensures !(prefix <= s) ==> r == s
  {
    if prefix <= s then s[|prefix|..] else s
  }

  /** The candidate list: the explicit address alone, scheme removed, when it
      is non-empty; the well-known paths otherwise. */
  function Candidates(explicit: string): (cands: seq<string>)
    ensures |explicit| > 0 ==> |cands| == 1 && (UnixScheme <= explicit ==> UnixScheme + cands[0] == explicit)
                                  && (!(UnixScheme <= explicit) ==> cands[0] == explicit)
    ensures |explicit| == 0 ==> cands == WellKnownAddresses
  {
    if |explicit| > 0 then [TrimPrefix(explicit, UnixScheme)] else WellKnownAddresses
  }

  /** No candidate in `s` passes the probe. */
  predicate NoneAccessible(s: seq<string>, accessible: string -> bool) {
    forall i :: 0 <= i < |s| ==> !accessible(s[i])
  }

  /** The first candidate that passes the probe, or failure when none does. */
  function FirstAccessible(cands: seq<string>, accessible: string -> bool): (r: Detection)
    ensures r.NoAddressFound? <==> NoneAccessible(cands, accessible)
    ensures r.Found? ==> accessible(r.address)
    ensures r.Found? ==>
      exists k :: 0 <= k < |cands| && cands[k] == r.address && NoneAccessible(cands[..k], accessible)
  {
    if cands == [] then NoAddressFound
    else if accessible(cands[0]) then
      assert NoneAccessible(cands[..0], accessible);
      Found(cands[0])
    else
      var r := FirstAccessible(cands[1..], accessible);
      if r.Found? then
        var k :| 0 <= k < |cands[1..]| && cands[1..][k] == r.address
                 && NoneAccessible(cands[1..][..k], accessible);
        assert cands[..k + 1] == [cands[0]] + cands[1..][..k];
        assert cands[k + 1] == r.address && NoneAccessible(cands[..k + 1], accessible);
        r
      else
        assert cands == [cands[0]] + cands[1..];
        r
  }

  /** `detectAddress`: build the candidate list, then try each candidate in
      order and return the first accessible one. */
  method DetectAddress(explicit: string, accessible: string -> bool) returns (r: Detection)
    ensures r == FirstAccessible(Candidates(explicit), accessible)
  {
    var addresses := WellKnownAddresses;
    if |explicit| > 0 {
      addresses := [TrimPrefix(explicit, UnixScheme)];
    }
    var i := 0;
    while i < |addresses|
      invariant 0 <= i <= |addresses|
      invariant FirstAccessible(addresses, accessible) == FirstAccessible(addresses[i..], accessible)
    {
      assert addresses[i..] == [addresses[i]] + addresses[i + 1..];
      if accessible(addresses[i]) {
        return Found(addresses[i]);
      }
      i := i + 1;
    }
    return NoAddressFound;
  }

  /** With a non-empty explicit address only that address, `unix://` removed,
      is tried: it is the result when accessible, and otherwise detection
      fails whatever the well-known paths would have answered. */
  lemma ExplicitAddressIsSoleCandidate(explicit: string, accessible: string -> bool)
    requires |explicit| > 0
    ensures var path := TrimPrefix(explicit, UnixScheme);
      FirstAccessible(Candidates(explicit), accessible) ==
        if accessible(path) then Found(path) else NoAddressFound
  {
  }

  /** `unix://` in front of a path is removed; a bare path is kept as it is. */
  lemma UnixSchemeStripped(path: string)
    ensures TrimPrefix(UnixScheme + path, UnixScheme) == path
    ensures !(UnixScheme <= path) ==> TrimPrefix(path, UnixScheme) == path
  {
  }

  /** Without an explicit address the well-known paths are tried in order:
      the first, then the second, then failure. */
  lemma WellKnownInOrder(accessible: string -> bool)
    ensures FirstAccessible(Candidates(""), accessible) ==
      if accessible(WellKnownAddresses[0]) then Found(WellKnownAddresses[0])
      else if accessible(WellKnownAddresses[1]) then Found(WellKnownAddresses[1])
      else NoAddressFound
  {
  }
}

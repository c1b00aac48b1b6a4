/**
 * The endpoint key under which the registry files a lobby: the host, an
 * underscore, and the decimal text of the port (main.go's createKey).
 * The digits never contain the separator, so splitting at the last
 * underscore recovers the pair, and distinct (host, port) pairs never share
 * a key.
 */
module Keys {
  import opened Wrappers
  import opened Decimal

  const Separator: char := '_'

  /** createKey: host, then the separator, then a tail free of separators. */
  function CreateKey(host: string, port: int): (k: string)
    ensures |k| > |host| + 1
    ensures k[..|host|] == host && k[|host|] == Separator
    ensures forall i :: |host| < i < |k| ==> k[i] != Separator
  {
    host + [Separator] + Itoa(port)
  }

  /** The position of the last separator in `s`, if there is one. */
  function LastSeparator(s: string): (r: Option<nat>)
    ensures r.Some? ==> r.value < |s| && s[r.value] == Separator
    ensures r.Some? ==> forall i :: r.value < i < |s| ==> s[i] != Separator
    ensures r.None? ==> forall i :: 0 <= i < |s| ==> s[i] != Separator
  {
    if |s| == 0 then None
    else if s[|s| - 1] == Separator then Some(|s| - 1)
    else LastSeparator(s[..|s| - 1])
  }

  /** Splits a key at its last separator into the host and the parsed port. */
  function SplitKey(k: string): Option<(string, int)> {
    match LastSeparator(k)
    case None => None
    case Some(i) =>
      match ParseInt(k[i + 1..])
      case None => None
      case Some(port) => Some((k[..i], port))
  }

  /** Splitting a key gives back the host and port it was made from. */
  lemma KeyRoundTrip(host: string, port: int)
    ensures SplitKey(CreateKey(host, port)) == Some((host, port))
  {
    var k := CreateKey(host, port);
    assert LastSeparator(k) == Some(|host|);
    assert k[|host| + 1..] == Itoa(port);
    ItoaRoundTrip(port);
  }

  /** Two keys are equal exactly when their hosts and their ports are. */
  lemma KeyInjective(host1: string, port1: int, host2: string, port2: int)
    ensures CreateKey(host1, port1) == CreateKey(host2, port2) <==> host1 == host2 && port1 == port2
  {
    KeyRoundTrip(host1, port1);
    KeyRoundTrip(host2, port2);
  }
}

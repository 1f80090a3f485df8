/** The renewing certificate provider: one cached certificate, replaced when less than a tenth of its
    lifetime is left. What callers may rely on, over any sequence of calls, and how often it issues. */
module CertProvider {
  import opened Wire
  import opened Specs
  import opened Reconcile

  const MINUTE := 60 * SECOND
  const MIN_TTL := 5 * MINUTE

  datatype Opt =
    | CommonName | Organization | KeyUsage
    | IPAddress(host: Text) | DNSName(host: Text)
    | NotBefore(at: int) | NotAfter(at: int)

  datatype Certificate = Certificate(opts: seq<Opt>, notBefore: int, notAfter: int)

  datatype ProviderError = NoCA | NoHost | TTLTooShort

  /** Certificates carry whole seconds (section 4.1.2.5 of RFC 5280). */
  function Seconds(t: int): int { t / SECOND * SECOND }

  function Validity(now: int, certTTL: int): seq<Opt> { [NotBefore(now), NotAfter(now + certTTL)] }

  /** What is issued for a set of options ending in a validity. */
  function Issued(opts: seq<Opt>, now: int, certTTL: int): Certificate {
    Certificate(opts + Validity(now, certTTL), Seconds(now), Seconds(now + certTTL))
  }

  /** Go's integer division rounds toward zero; lifetimes are positive. */
  predicate ShouldRenew(cert: Option<Certificate>, certTTL: int, now: int) {
    cert.None? || TimeSince(cert.value.notAfter, now) < certTTL / 10
  }

  // ------------------------------------------------------------------------- slices

  /** A Go slice: an array, how much of it is in use, and how much may be. */
  datatype Slice = Slice(backing: array<Opt>, len: nat, cap: nat)

  ghost predicate WellFormed(s: Slice) { s.len <= s.cap <= s.backing.Length }

  function Elements(s: Slice): seq<Opt>
    requires WellFormed(s)
    reads s.backing
  {
    s.backing[..s.len]
  }

  function Clip(s: Slice): Slice { s.(cap := s.len) }

  /** Appending writes into the array while its capacity lasts, and moves to a new one after that. */
  method Append(s: Slice, more: seq<Opt>) returns (r: Slice)
    requires WellFormed(s)
    modifies if s.len + |more| <= s.cap then {s.backing} else {}
    ensures WellFormed(r) && Elements(r) == old(Elements(s)) + more
    ensures if s.len + |more| <= s.cap then r.backing == s.backing else fresh(r.backing)
  {
    if s.len + |more| <= s.cap {
      forall k | 0 <= k < |more| {
        s.backing[s.len + k] := more[k];
      }
      r := s.(len := s.len + |more|);
    } else {
      var n := s.len + |more|;
      var backing := new Opt[2 * n](k requires k >= 0 reads s.backing =>
        if k < s.len <= s.backing.Length then s.backing[k] else if s.len <= k < n then more[k - s.len] else CommonName);
      r := Slice(backing, n, 2 * n);
      assert backing[..n] == s.backing[..s.len] + more;
    }
  }

  // ------------------------------------------------------------------------- the provider

  class RenewingCertificateProvider {
    const host: Text
    const certTTL: int
    const opts: Slice
    var cert: Option<Certificate>

    constructor (host: Text, certTTL: int, opts: Slice)
      requires WellFormed(opts) && certTTL >= MIN_TTL
      ensures Valid() && cert.None? && this.host == host && this.certTTL == certTTL && this.opts == opts
    {
      this.host, this.certTTL, this.opts, this.cert := host, certTTL, opts, None;
    }

    ghost predicate Valid() { WellFormed(opts) && certTTL >= MIN_TTL }

    /** Serves the cached certificate, or a new one. The provider's own options are appended to, but the
        array they live in is not among the things this writes. */
    method GetCertificate(now: int, keyPairOk: bool) returns (r: Option<Certificate>)
      requires Valid()
      modifies this`cert
      ensures (cert, r) == Serve(Elements(opts), certTTL, old(cert), Handshake(now, keyPairOk))
    {
      if !ShouldRenew(cert, certTTL, now) {
        return cert;
      }
      var extended := Append(Clip(opts), Validity(now, certTTL));
      if !keyPairOk {
        return None;
      }
      cert := Some(Certificate(Elements(extended), Seconds(now), Seconds(now + certTTL)));
      return cert;
    }
  }

  method NewRenewingCertificateProvider(hasCA: bool, host: Text, isIP: bool, certTTL: int)
    returns (p: RenewingCertificateProvider?, err: Option<ProviderError>)
    ensures err == if !hasCA then Some(NoCA) else if host == [] then Some(NoHost)
                else if certTTL < MIN_TTL then Some(TTLTooShort) else None
    ensures p == null <==> err.Some?
    ensures p != null ==>
              && fresh(p) && fresh(p.opts.backing) && p.Valid() && p.cert.None? && p.certTTL == certTTL
              && p.host == host
              && Elements(p.opts) ==
                   [CommonName, Organization, KeyUsage, if isIP then IPAddress(host) else DNSName(host)]
  {
    if !hasCA {
      return null, Some(NoCA);
    }
    if host == [] {
      return null, Some(NoHost);
    }
    if certTTL < MIN_TTL {
      return null, Some(TTLTooShort);
    }
    var literal := new Opt[3](i => if i == 0 then CommonName else if i == 1 then Organization else KeyUsage);
    var base := Slice(literal, 3, 3);
    assert Elements(base) == [CommonName, Organization, KeyUsage];
    var opts := Append(base, [if isIP then IPAddress(host) else DNSName(host)]);
    p := new RenewingCertificateProvider(host, certTTL, opts);
    err := None;
  }

  // ------------------------------------------------------------------------- sequences of calls

  datatype Handshake = Handshake(now: int, keyPairOk: bool)

  /** The cache after a call, and what the caller gets. */
  function Serve(opts: seq<Opt>, certTTL: int, cert: Option<Certificate>, h: Handshake)
    : (Option<Certificate>, Option<Certificate>)
  {
    if !ShouldRenew(cert, certTTL, h.now) then (cert, cert)
    else if !h.keyPairOk then (cert, None)
    else (Some(Issued(opts, h.now, certTTL)), Some(Issued(opts, h.now, certTTL)))
  }

  function Cached(opts: seq<Opt>, certTTL: int, hs: seq<Handshake>): Option<Certificate> {
    if hs == [] then None else Serve(opts, certTTL, Cached(opts, certTTL, hs[..|hs| - 1]), hs[|hs| - 1]).0
  }

  function Answer(opts: seq<Opt>, certTTL: int, hs: seq<Handshake>, k: nat): Option<Certificate>
    requires k < |hs|
  {
    Serve(opts, certTTL, Cached(opts, certTTL, hs[..k]), hs[k]).1
  }

  /** The call made the provider issue. */
  predicate Issues(opts: seq<Opt>, certTTL: int, hs: seq<Handshake>, k: nat)
    requires k < |hs|
  {
    ShouldRenew(Cached(opts, certTTL, hs[..k]), certTTL, hs[k].now) && hs[k].keyPairOk
  }

  /** The times at which it issued. */
  function IssueTimes(opts: seq<Opt>, certTTL: int, hs: seq<Handshake>): seq<int> {
    if hs == [] then []
    else
      var n := |hs| - 1;
      IssueTimes(opts, certTTL, hs[..n]) + (if Issues(opts, certTTL, hs, n) then [hs[n].now] else [])
  }

  ghost predicate InOrder(hs: seq<Handshake>) { forall i, j :: 0 <= i <= j < |hs| ==> hs[i].now <= hs[j].now }

  /** The cached certificate is the one issued last. */
  lemma {:induction false} CachedIsLastIssue(opts: seq<Opt>, certTTL: int, hs: seq<Handshake>)
    ensures var times := IssueTimes(opts, certTTL, hs);
            Cached(opts, certTTL, hs) == if times == [] then None else Some(Issued(opts, times[|times| - 1], certTTL))
    decreases |hs|
  {
    if hs != [] {
      var n := |hs| - 1;
      CachedIsLastIssue(opts, certTTL, hs[..n]);
      assert Issues(opts, certTTL, hs, n) ==
        (ShouldRenew(Cached(opts, certTTL, hs[..n]), certTTL, hs[n].now) && hs[n].keyPairOk);
    }
  }

  lemma {:induction false} IssuesAreNotAhead(opts: seq<Opt>, certTTL: int, hs: seq<Handshake>, now: int)
    requires forall h <- hs :: h.now <= now
    ensures forall t <- IssueTimes(opts, certTTL, hs) :: t <= now
    decreases |hs|
  {
    if hs != [] {
      var n := |hs| - 1;
      assert hs[n] in hs;
      IssuesAreNotAhead(opts, certTTL, hs[..n], now);
    }
  }

  lemma {:induction false} WholeSeconds(t: int)
    ensures t - SECOND < Seconds(t) <= t
  {
  }

  /** What is issued bears the options, then the times it is valid from and to, cut to whole seconds. */
  lemma {:induction false} IssuedExactly(opts: seq<Opt>, t: int, certTTL: int)
    ensures var c := Issued(opts, t, certTTL);
      && c.opts == opts + [NotBefore(t), NotAfter(t + certTTL)]
      && c.notBefore % SECOND == 0 && c.notAfter % SECOND == 0
      && 0 <= t - c.notBefore < SECOND && 0 <= t + certTTL - c.notAfter < SECOND
  {
    WholeSeconds(t);
    WholeSeconds(t + certTTL);
  }

  /** Whatever is served is valid now, for at least another tenth of the lifetime, and carries the
      provider's own options followed by the one validity it was issued with. A call fails only when issuing does. */
  lemma {:induction false} ServedIsFresh(opts: seq<Opt>, certTTL: int, hs: seq<Handshake>, k: nat)
    requires MIN_TTL <= certTTL < TWO63 && InOrder(hs) && k < |hs|
    ensures Answer(opts, certTTL, hs, k).None? ==> !hs[k].keyPairOk
    ensures Answer(opts, certTTL, hs, k).Some? ==>
              var c := Answer(opts, certTTL, hs, k).value;
              && c.notBefore <= hs[k].now && c.notAfter - hs[k].now >= certTTL / 10
              && exists t :: t <= hs[k].now && c == Issued(opts, t, certTTL)
  {
    CachedIsLastIssue(opts, certTTL, hs[..k]);
    IssuesAreNotAhead(opts, certTTL, hs[..k], hs[k].now);
    var times := IssueTimes(opts, certTTL, hs[..k]);
    WholeSeconds(hs[k].now);
    WholeSeconds(hs[k].now + certTTL);
    if times != [] {
      assert times[|times| - 1] in times;
      WholeSeconds(times[|times| - 1]);
      WholeSeconds(times[|times| - 1] + certTTL);
    }
  }

  /** The least time between two issues: nine tenths of the lifetime, less what whole-second
      expiry times take off. */
  function Gap(certTTL: int): int { certTTL - certTTL / 10 - SECOND + 2 }

  ghost predicate Spaced(times: seq<int>, gap: int) {
    forall i :: 0 < i < |times| ==> times[i] >= times[i - 1] + gap
  }

  lemma {:induction false} IssuesAreSpaced(opts: seq<Opt>, certTTL: int, hs: seq<Handshake>)
    requires MIN_TTL <= certTTL < TWO63 && InOrder(hs)
    ensures Spaced(IssueTimes(opts, certTTL, hs), Gap(certTTL))
    decreases |hs|
  {
    if hs != [] {
      var n := |hs| - 1;
      IssuesAreSpaced(opts, certTTL, hs[..n]);
      CachedIsLastIssue(opts, certTTL, hs[..n]);
      IssuesAreNotAhead(opts, certTTL, hs[..n], hs[n].now);
      var before := IssueTimes(opts, certTTL, hs[..n]);
      if before != [] {
        assert before[|before| - 1] in before;
        WholeSeconds(before[|before| - 1] + certTTL);
      }
    }
  }

  /** However often it is asked, issues i..j take at least (j - i) gaps: a window of time holds only so
      many certificates. */
  lemma {:induction false} IssuesPerWindow(opts: seq<Opt>, certTTL: int, hs: seq<Handshake>, i: nat, j: nat)
    requires MIN_TTL <= certTTL < TWO63 && InOrder(hs)
    requires i <= j < |IssueTimes(opts, certTTL, hs)|
    ensures var times := IssueTimes(opts, certTTL, hs); (j - i) * Gap(certTTL) <= times[j] - times[i]
    decreases j
  {
    IssuesAreSpaced(opts, certTTL, hs);
    if i < j {
      IssuesPerWindow(opts, certTTL, hs, i, j - 1);
      assert (j - i) * Gap(certTTL) == (j - 1 - i) * Gap(certTTL) + Gap(certTTL);
    }
  }

  /** The bound is met: asked at the right moment, the provider issues exactly one gap later. */
  lemma {:induction false} GapIsTight(opts: seq<Opt>, certTTL: int, seconds: nat)
    requires MIN_TTL <= certTTL < TWO63 && certTTL % SECOND == 0
    ensures var first := (seconds + 1) * SECOND - 1;
            var hs := [Handshake(first, true), Handshake(first + Gap(certTTL), true)];
            IssueTimes(opts, certTTL, hs) == [first, first + Gap(certTTL)]
  {
    var first := (seconds + 1) * SECOND - 1;
    var a, b := Handshake(first, true), Handshake(first + Gap(certTTL), true);
    var hs := [a, b];
    assert hs[..1] == [a] && [a][..0] == [];
    assert Cached(opts, certTTL, []) == None && IssueTimes(opts, certTTL, []) == [];
    assert IssueTimes(opts, certTTL, [a]) == [first];
    CachedIsLastIssue(opts, certTTL, [a]);
    var whole := certTTL / SECOND;
    assert first + certTTL == (seconds + whole) * SECOND + (SECOND - 1);
    assert Seconds(first + certTTL) == (seconds + whole) * SECOND;
    assert Issues(opts, certTTL, hs, 1);
  }
}

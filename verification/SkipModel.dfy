/** A record skipper written from the Protocol Buffers encoding document, sections "Message
    Structure" and "Groups". It meets the contract the codec asks of `protohelpers.Skip`, so the
    codec's theorems, which hold for every skipper with that contract, are about something. */
module SkipModel {
  import opened Wire

  /** The bytes the current tag and its body take, and the group depth after it. */
  datatype Hop = Hop(size: nat, depth: nat)

  function HopOver(s: seq<byte>, depth: nat): (r: Option<Hop>)
    ensures r.Some? ==> Scan(s, 0).Ok? && Scan(s, 0).value.size <= r.value.size
  {
    match Scan(s, 0)
    case Err(_) => None
    case Ok(tag) =>
      var body := s[tag.size..];
      match tag.raw % 8
      case 0 =>
        (match Scan(body, 0)
         case Err(_) => None
         case Ok(v) => Some(Hop(tag.size + v.size, depth)))
      case 1 => Some(Hop(tag.size + 8, depth))
      case 2 =>
        (match Scan(body, 0)
         case Err(_) => None
         case Ok(v) =>
           if v.raw % TWO64 >= TWO63 then None else Some(Hop(tag.size + v.size + v.raw % TWO64, depth)))
      case 3 => Some(Hop(tag.size, depth + 1))
      case 4 => if depth == 0 then None else Some(Hop(tag.size, depth - 1))
      case 5 => Some(Hop(tag.size + 4, depth))
      case _ => None
  }

  function SkipFrom(s: seq<byte>, depth: nat): (r: Option<nat>)
    ensures r.Some? ==> Scan(s, 0).Ok? && Scan(s, 0).value.size <= r.value
    decreases |s|
  {
    match HopOver(s, depth)
    case None => None
    case Some(hop) =>
      if hop.depth == 0 then Some(hop.size)
      else if hop.size > |s| then None
      else
        match SkipFrom(s[hop.size..], hop.depth)
        case None => None
        case Some(rest) => Some(hop.size + rest)
  }

  function StandardSkip(s: seq<byte>): (r: Option<nat>)
    ensures r.Some? ==> Scan(s, 0).Ok? && Scan(s, 0).value.size <= r.value < TWO63
  {
    match SkipFrom(s, 0)
    case None => None
    case Some(n) => if n >= TWO63 then None else Some(n)
  }

  lemma {:induction false} HopLocal(s: seq<byte>, t: seq<byte>, depth: nat)
    requires HopOver(s, depth).Some? && Prefixed(t, s, HopOver(s, depth).value.size)
    ensures HopOver(t, depth) == HopOver(s, depth)
  {
    hide Scan;
    var tag, n := Scan(s, 0).value, HopOver(s, depth).value.size;
    PrefixedLess(t, s, n, tag.size);
    ScanLocal(s, t, 0);
    if tag.raw % 8 == 0 || tag.raw % 8 == 2 {
      var v := Scan(s[tag.size..], 0).value;
      PrefixedLess(t, s, n, tag.size + v.size);
      assert s[tag.size..][..v.size] == s[..tag.size + v.size][tag.size..];
      assert t[tag.size..][..v.size] == t[..tag.size + v.size][tag.size..];
      ScanLocal(s[tag.size..], t[tag.size..], 0);
    }
  }

  lemma {:induction false} SkipLocal(s: seq<byte>, t: seq<byte>, depth: nat)
    requires SkipFrom(s, depth).Some? && Prefixed(t, s, SkipFrom(s, depth).value)
    ensures SkipFrom(t, depth) == SkipFrom(s, depth)
    decreases |s|
  {
    hide Scan, HopOver;
    var hop, n := HopOver(s, depth).value, SkipFrom(s, depth).value;
    PrefixedLess(t, s, n, hop.size);
    HopLocal(s, t, depth);
    if hop.depth != 0 {
      assert s[hop.size..][..n - hop.size] == s[..n][hop.size..];
      assert t[hop.size..][..n - hop.size] == t[..n][hop.size..];
      SkipLocal(s[hop.size..], t[hop.size..], hop.depth);
    }
  }

  lemma {:induction false} StandardSkipMeetsContract()
    ensures SkipContract(StandardSkip)
  {
    forall s: seq<byte>, t: seq<byte>
      ensures SkipLaw(StandardSkip, s, t)
    {
      if StandardSkip(s).Some? && Prefixed(t, s, StandardSkip(s).value) {
        SkipLocal(s, t, 0);
      }
    }
  }

  /** Skipping passes over a whole group, however its members nest, and stops right after it. */
  lemma {:induction false} SkipStopsAtRecordEnd(s: seq<byte>, rest: seq<byte>)
    requires StandardSkip(s) == Some(|s|)
    ensures StandardSkip(s + rest) == Some(|s|)
  {
    assert s[..|s|] == s && (s + rest)[..|s|] == s;
    SkipLocal(s, s + rest, 0);
  }
}

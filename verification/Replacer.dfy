/**
  Multi-string replacement as the templates use it: one pass from the left, without overlaps, with
  earlier arguments preferred where several match. The replacers for known addresses are built by
  iterating over a map, whose order is unspecified, after a padding of empty arguments.
 */
module Replacer {
  import opened Prelude

  /** One old/new argument pair. */
  datatype Pair = Pair(old': string, new': string)

  /** The first pair in argument order whose old string starts the text. */
  function Match(pairs: seq<Pair>, text: string): (m: Option<Pair>)
    ensures m.Some? ==> m.value in pairs && m.value.old' <= text
    ensures m.None? ==> forall p :: p in pairs ==> !(p.old' <= text)
  {
    if pairs == [] then None
    else if pairs[0].old' <= text then Some(pairs[0])
    else Match(pairs[1..], text)
  }

  /** The pairs a lookup considers right after an empty match. */
  function NonEmpty(pairs: seq<Pair>): (r: seq<Pair>)
    ensures forall p :: p in r <==> p in pairs && p.old' != ""
  {
    if pairs == [] then []
    else (if pairs[0].old' == "" then [] else [pairs[0]]) + NonEmpty(pairs[1..])
  }

  /**
    The pass. An empty old string matches before every character and at the end, but not twice in a
    row: `emptyBefore` says that the last match was empty.
   */
  function Replace(pairs: seq<Pair>, text: string, emptyBefore: bool): string
    decreases |text|, !emptyBefore
  {
    match Match(if emptyBefore then NonEmpty(pairs) else pairs, text)
    case None => if text == "" then "" else [text[0]] + Replace(pairs, text[1..], false)
    case Some(p) =>
      if p.old' != "" then p.new' + Replace(pairs, text[|p.old'|..], false)
      else p.new' + Replace(pairs, text, true)
  }

  /** No old string is empty or a prefix of another one. */
  predicate PrefixFree(pairs: seq<Pair>) {
    && (forall p :: p in pairs ==> p.old' != "")
    && (forall p, q :: p in pairs && q in pairs && p.old' <= q.old' ==> p == q)
  }

  predicate NoEmpties(pairs: seq<Pair>) {
    forall p :: p in pairs ==> p.old' != ""
  }

  /** What a pass writes for the start of a text, and how much of the text that takes up. */
  datatype Piece = Piece(out: string, taken: nat)

  function First(pairs: seq<Pair>, text: string): (r: Piece)
    requires text != "" && NoEmpties(pairs)
    ensures 0 < r.taken <= |text|
  {
    match Match(pairs, text)
    case None => Piece([text[0]], 1)
    case Some(p) => Piece(p.new', |p.old'|)
  }

  lemma ReplaceFirst(pairs: seq<Pair>, text: string)
    requires NoEmpties(pairs)
    ensures text == "" ==> Replace(pairs, text, false) == ""
    ensures text != "" ==>
      Replace(pairs, text, false) == First(pairs, text).out + Replace(pairs, text[First(pairs, text).taken..], false)
  {
  }

  // The order of the arguments

  lemma PrefixesCompare(a: string, b: string, text: string)
    requires a <= text && b <= text
    ensures a <= b || b <= a
  {
    if |a| <= |b| {
      assert a == text[..|a|] == b[..|a|];
    } else {
      assert b == text[..|b|] == a[..|b|];
    }
  }

  lemma MatchAnyOrder(pairs: seq<Pair>, others: seq<Pair>, text: string)
    requires PrefixFree(pairs) && forall p :: p in pairs <==> p in others
    ensures Match(pairs, text) == Match(others, text)
  {
    var m, n := Match(pairs, text), Match(others, text);
    if m.Some? && n.Some? {
      PrefixesCompare(m.value.old', n.value.old', text);
    }
  }

  lemma {:induction false} NonEmptyAll(pairs: seq<Pair>)
    requires forall p :: p in pairs ==> p.old' != ""
    ensures NonEmpty(pairs) == pairs
  {
    if pairs != [] {
      NonEmptyAll(pairs[1..]);
    }
  }

  /** For prefix-free old strings, every order of the arguments replaces alike. */
  lemma {:induction false} OrderIrrelevant(pairs: seq<Pair>, others: seq<Pair>, text: string)
    requires PrefixFree(pairs) && forall p :: p in pairs <==> p in others
    ensures Replace(pairs, text, false) == Replace(others, text, false)
    decreases |text|
  {
    MatchAnyOrder(pairs, others, text);
    match Match(pairs, text)
    case None =>
      if text != "" {
        OrderIrrelevant(pairs, others, text[1..]);
      }
    case Some(p) => OrderIrrelevant(pairs, others, text[|p.old'|..]);
  }

  // The padding

  function Padding(n: nat): seq<Pair> {
    seq(n, _ => Pair("", ""))
  }

  lemma {:induction false} NonEmptyPadded(n: nat, pairs: seq<Pair>)
    requires forall p :: p in pairs ==> p.old' != ""
    ensures NonEmpty(Padding(n) + pairs) == pairs
  {
    if n == 0 {
      assert Padding(0) + pairs == pairs;
      NonEmptyAll(pairs);
    } else {
      assert (Padding(n) + pairs)[1..] == Padding(n - 1) + pairs;
      NonEmptyPadded(n - 1, pairs);
    }
  }

  /** Arguments that replace nothing by nothing, even in front of all others, do not change the result. */
  lemma {:induction false} PaddingHarmless(n: nat, pairs: seq<Pair>, text: string)
    requires forall p :: p in pairs ==> p.old' != ""
    ensures Replace(Padding(n) + pairs, text, true) == Replace(pairs, text, false)
    ensures Replace(Padding(n) + pairs, text, false) == Replace(pairs, text, false)
    decreases |text|
  {
    var padded := Padding(n) + pairs;
    NonEmptyPadded(n, pairs);
    match Match(pairs, text)
    case None =>
      if text != "" {
        PaddingHarmless(n, pairs, text[1..]);
      }
    case Some(p) => PaddingHarmless(n, pairs, text[|p.old'|..]);
    assert Replace(padded, text, true) == Replace(pairs, text, false);
    if n == 0 {
      assert padded == pairs;
    } else {
      assert padded[0] == Pair("", "") && Match(padded, text) == Some(padded[0]);
    }
  }

  // The replacers for known addresses

  /** The addresses of one variable by chain; an unknown chain has the empty address. */
  type KnownAddresses = map<string, string>
  type TemplateVariables = map<string, KnownAddresses>

  function AddressIn(addresses: KnownAddresses, chain: string): string {
    if chain in addresses then addresses[chain] else ""
  }

  /** The pairs are the variables with their addresses on this chain, in some order. */
  ghost predicate Lists(pairs: seq<Pair>, t: TemplateVariables, chain: string) {
    forall p :: p in pairs <==> p.old' in t && p.new' == AddressIn(t[p.old'], chain)
  }

  predicate PrefixFreeKeys(keys: set<string>) {
    && "" !in keys
    && forall k, l :: k in keys && l in keys && k <= l ==> k == l
  }

  /** Builds one chain's argument list by iterating over the map in an arbitrary order, after its padding. */
  method MakeReplacer(t: TemplateVariables, chain: string) returns (vv: seq<Pair>)
    ensures |vv| == 2 * |t| && vv[..|t|] == Padding(|t|) && Lists(vv[|t|..], t, chain)
    ensures PrefixFreeKeys(t.Keys) ==>
      forall pairs, text :: Lists(pairs, t, chain) ==> Replace(vv, text, false) == Replace(pairs, text, false)
  {
    vv := Padding(|t|);
    ghost var listed: seq<Pair> := [];
    var remaining := t.Keys;
    while remaining != {}
      invariant remaining <= t.Keys && |listed| + |remaining| == |t.Keys|
      invariant vv == Padding(|t|) + listed
      invariant forall p :: p in listed <==> p.old' in t.Keys - remaining && p.new' == AddressIn(t[p.old'], chain)
      decreases |remaining|
    {
      var varname :| varname in remaining;
      var pair := Pair(varname, AddressIn(t[varname], chain));
      vv := vv + [pair];
      listed := listed + [pair];
      remaining := remaining - {varname};
    }
    assert vv[|t|..] == listed;
    forall pairs, text | PrefixFreeKeys(t.Keys) && Lists(pairs, t, chain)
      ensures Replace(vv, text, false) == Replace(pairs, text, false)
    {
      PaddingHarmless(|t|, listed, text);
      assert PrefixFree(pairs);
      OrderIrrelevant(pairs, listed, text);
    }
  }

  // Occurrences

  /** No old string can start before an occurrence of `k` and reach into it. */
  predicate NoStraddle(pairs: seq<Pair>, k: string) {
    forall p, j :: p in pairs && 0 < j < |p.old'| ==> !(p.old'[j..] <= k) && !(k <= p.old'[j..])
  }

  lemma StraddleAt(old': string, k: string, before: string, after: string)
    requires before != "" && |before| < |old'| && old' <= before + k + after
    ensures old'[|before|..] <= k || k <= old'[|before|..]
  {
    var text := before + k + after;
    assert text[|before|..] == k + after;
    assert old'[|before|..] == text[|before|..|old'|];
    assert old'[|before|..] <= k + after && k <= k + after;
    PrefixesCompare(old'[|before|..], k, k + after);
  }

  lemma PrefixOfPrefix(a: string, b: string, more: string)
    requires a <= b + more
    ensures |a| <= |b| <==> a <= b
    ensures b <= b + more
  {
    if |a| <= |b| {
      assert a == (b + more)[..|a|] == b[..|a|];
    }
  }

  /** In front of an occurrence nothing straddles, a lookup finds what it would find without it. */
  lemma MatchInside(pairs: seq<Pair>, k: string, before: string, after: string)
    requires PrefixFree(pairs) && NoStraddle(pairs, k) && before != ""
    ensures Match(pairs, before + k + after) == Match(pairs, before)
  {
    var text := before + k + after;
    assert text == before + (k + after);
    var m, n := Match(pairs, text), Match(pairs, before);
    if m.Some? {
      if |m.value.old'| > |before| {
        StraddleAt(m.value.old', k, before, after);
      }
      PrefixOfPrefix(m.value.old', before, k + after);
    }
    if n.Some? {
      assert n.value.old' <= text;
      PrefixesCompare(m.value.old', n.value.old', text);
    }
  }

  lemma FirstInside(pairs: seq<Pair>, k: string, before: string, after: string)
    requires PrefixFree(pairs) && NoStraddle(pairs, k) && before != ""
    ensures First(pairs, before + (k + after)) == First(pairs, before)
  {
    MatchInside(pairs, k, before, after);
    assert before + k + after == before + (k + after);
  }

  lemma OccurrenceAtStart(pairs: seq<Pair>, k: Pair, after: string)
    requires PrefixFree(pairs) && k in pairs
    ensures Replace(pairs, k.old' + after, false) == k.new' + Replace(pairs, after, false)
  {
    var text := k.old' + after;
    assert k.old' <= text;
    PrefixesCompare(k.old', Match(pairs, text).value.old', text);
    assert First(pairs, text) == Piece(k.new', |k.old'|);
    ReplaceFirst(pairs, text);
    assert text[|k.old'|..] == after;
  }

  /** What the pass does first to a text it does first to any extension that starts alike. */
  lemma OccurrenceStep(pairs: seq<Pair>, before: string, rest: string, n: nat, replaced: string)
    requires NoEmpties(pairs) && before != "" && First(pairs, before + rest) == First(pairs, before)
    requires n == First(pairs, before).taken
    requires Replace(pairs, before[n..] + rest, false) == Replace(pairs, before[n..], false) + replaced
    ensures Replace(pairs, before + rest, false) == Replace(pairs, before, false) + replaced
  {
    var text := before + rest;
    assert text[n..] == before[n..] + rest;
    var head := First(pairs, before).out;
    var tail := Replace(pairs, before[n..], false);
    assert Replace(pairs, text, false) == head + (tail + replaced) by {
      ReplaceFirst(pairs, text);
    }
    assert Replace(pairs, before, false) == head + tail by {
      ReplaceFirst(pairs, before);
    }
    AppendAssoc(head, tail, replaced);
  }

  /** An occurrence that nothing straddles is replaced as a whole, wherever it stands. */
  lemma {:induction false} OccurrenceReplaced(pairs: seq<Pair>, k: Pair, before: string, after: string)
    requires PrefixFree(pairs) && k in pairs && NoStraddle(pairs, k.old')
    ensures Replace(pairs, before + (k.old' + after), false)
         == Replace(pairs, before, false) + (k.new' + Replace(pairs, after, false))
    decreases |before|
  {
    var rest := k.old' + after;
    if before == "" {
      OccurrenceAtStart(pairs, k, after);
      ReplaceFirst(pairs, before);
      assert before + rest == rest;
    } else {
      FirstInside(pairs, k.old', before, after);
      OccurrenceReplaced(pairs, k, before[First(pairs, before).taken..], after);
      OccurrenceStep(pairs, before, rest, First(pairs, before).taken, k.new' + Replace(pairs, after, false));
    }
  }

  lemma AppendAssoc(a: string, b: string, c: string)
    ensures a + (b + c) == a + b + c
  {
  }

  const EXTENSION := ".cdc"
  const FT_NAME := "FungibleToken"
  const NFT_NAME := "NonFungibleToken"
  const FT_IMPORT := FT_NAME + EXTENSION
  const NFT_IMPORT := NFT_NAME + EXTENSION

  /**
    An import of `NonFungibleToken.cdc` always becomes its own address, never one built on its suffix
    `FungibleToken.cdc`.
   */
  lemma NonFungibleImport(pairs: seq<Pair>, ft: string, nft: string, before: string, after: string)
    requires forall p :: p in pairs <==> p == Pair(FT_IMPORT, ft) || p == Pair(NFT_IMPORT, nft)
    ensures Replace(pairs, before + (NFT_IMPORT + after), false)
         == Replace(pairs, before, false) + (nft + Replace(pairs, after, false))
  {
    assert FT_IMPORT[0] == 'F' && NFT_IMPORT[0] == 'N';
    forall p, j | p in pairs && 0 < j < |p.old'|
      ensures !(p.old'[j..] <= NFT_IMPORT) && !(NFT_IMPORT <= p.old'[j..])
    {
      assert p.old'[j] != 'N';
      assert p.old'[j..][0] == p.old'[j];
    }
    OccurrenceReplaced(pairs, Pair(NFT_IMPORT, nft), before, after);
  }
}

/**
  The four rewriting stages that turn a transaction template into a token's code: quoted paths of
  Cadence files become bare file names, the token's own file becomes a placeholder, placeholders
  become the token's particulars, and the remaining standard files become their known addresses.
 */
module TokenTemplates {
  import opened Prelude
  import opened Replacer

  // Quoted files: a quote, the shortest text on the line that a file name and the closing quote can follow

  predicate IsWord(c: char) {
    'a' <= c <= 'z' || 'A' <= c <= 'Z' || '0' <= c <= '9' || c == '_'
  }

  predicate Word(s: string) {
    s != "" && forall i :: 0 <= i < |s| ==> IsWord(s[i])
  }

  /** The length of the longest run of word characters at the start. */
  function WordLength(s: string): (n: nat)
    ensures n <= |s|
  {
    if s != "" && IsWord(s[0]) then 1 + WordLength(s[1..]) else 0
  }

  lemma {:induction false} WordLengthRun(s: string)
    ensures forall i :: 0 <= i < WordLength(s) ==> IsWord(s[i])
    ensures WordLength(s) < |s| ==> !IsWord(s[WordLength(s)])
  {
    if s != "" && IsWord(s[0]) {
      WordLengthRun(s[1..]);
      assert forall i :: 0 < i < |s| ==> s[i] == s[1..][i - 1];
    }
  }

  const CLOSING := ".cdc\""

  /** The length of the file name at the start, if a closing quote follows it. */
  function FileName(s: string): (length: Option<nat>)
    ensures length.Some? ==> length.value < |s|
  {
    var n := WordLength(s);
    if n > 0 && CLOSING <= s[n..] then Some(n + |EXTENSION|) else None
  }

  /** Where a file name stands. */
  datatype Place = Nowhere | At(start: nat, end: nat)

  /** The first file name of the line after an opening quote. */
  function Quoted(s: string): (m: Place)
    ensures m.At? ==> m.start <= m.end < |s|
  {
    match FileName(s)
    case Some(length) => At(0, length)
    case None =>
      if s == "" || s[0] == '\n' then Nowhere
      else
        match Quoted(s[1..])
        case Nowhere => Nowhere
        case At(start, end) => At(start + 1, end + 1)
  }

  type Stepper = string -> Piece

  ghost predicate Advances(step: Stepper) {
    forall s :: s != "" ==> 0 < step(s).taken <= |s|
  }

  function Scan(step: Stepper, s: string): string
    requires Advances(step)
    decreases |s|
  {
    if s == "" then "" else step(s).out + Scan(step, s[step(s).taken..])
  }

  /** What stands at the start is a match, to be replaced by its file name, or a character to be kept. */
  function Step(s: string): (r: Piece)
    ensures s != "" ==> 0 < r.taken <= |s|
  {
    if s == "" then Piece("", 0)
    else if s[0] != '"' then Piece([s[0]], 1)
    else
      match Quoted(s[1..])
      case Nowhere => Piece([s[0]], 1)
      case At(start, end) => Piece(s[1..][start..end], end + 2)
  }

  /** Every match is replaced by its file name. */
  function Unquote(s: string): string {
    Scan(Step, s)
  }

  // The stages

  datatype TokenNames = TokenNames(name: string, nameLowerCase: string, address: string)

  const PLACEHOLDER := "TOKEN_ADDRESS"

  function SourceFile(t: TokenNames): seq<Pair> {
    [Pair(t.name + EXTENSION, PLACEHOLDER)]
  }

  function Placeholders(t: TokenNames): seq<Pair> {
    [Pair("TOKEN_DECLARATION_NAME", t.name),
     Pair(PLACEHOLDER, t.address),
     Pair("TOKEN_VAULT", t.nameLowerCase + "Vault"),
     Pair("TOKEN_RECEIVER", t.nameLowerCase + "Receiver"),
     Pair("TOKEN_BALANCE", t.nameLowerCase + "Balance")]
  }

  /** The standard files with their addresses on one chain. */
  function Known(ft: string, nft: string): seq<Pair> {
    [Pair(FT_IMPORT, ft), Pair(NFT_IMPORT, nft)]
  }

  /**
    These are the pairs of the built-in variables, whose names are prefix-free: what `MakeReplacer` builds
    replaces alike.
   */
  lemma KnownListed(ft: KnownAddresses, nft: KnownAddresses, chain: string)
    ensures var t := map[FT_IMPORT := ft, NFT_IMPORT := nft];
            && PrefixFreeKeys(t.Keys)
            && Lists(Known(AddressIn(ft, chain), AddressIn(nft, chain)), t, chain)
  {
    assert FT_NAME[0] == 'F' && NFT_NAME[0] == 'N';
    assert FT_IMPORT[0] == 'F' && NFT_IMPORT[0] == 'N';
    var t := map[FT_IMPORT := ft, NFT_IMPORT := nft];
    assert forall k :: k in t.Keys ==> k == FT_IMPORT || k == NFT_IMPORT;
    var pairs := Known(AddressIn(ft, chain), AddressIn(nft, chain));
    assert pairs[0] in pairs && pairs[1] in pairs;
    assert forall p :: p in pairs ==> p == pairs[0] || p == pairs[1];
  }

  /** One replacement after another. */
  function Rewrite(stages: seq<seq<Pair>>, code: string): string {
    if stages == [] then code else Rewrite(stages[1..], Replace(stages[0], code, false))
  }

  function Stages(t: TokenNames, known: seq<Pair>): seq<seq<Pair>> {
    [SourceFile(t), Placeholders(t), known]
  }

  function TokenCode(t: TokenNames, known: seq<Pair>, template: string): string {
    Rewrite(Stages(t, known), Unquote(template))
  }

  // Line by line

  /** No old string contains this character. */
  predicate Lacks(pairs: seq<Pair>, c: char) {
    forall i :: 0 <= i < |pairs| ==> pairs[i].old' != "" && c !in pairs[i].old'
  }

  lemma PrefixBefore(old': string, a: string, c: char, b: string)
    requires c !in old'
    ensures old' <= a + [c] + b <==> old' <= a
  {
    var s := a + [c] + b;
    if |old'| <= |a| {
      assert s[..|old'|] == a[..|old'|];
    } else if |old'| <= |s| {
      assert s[..|old'|][|a|] == c && old'[|a|] != c;
    }
  }

  lemma {:induction false} MatchBefore(pairs: seq<Pair>, a: string, c: char, b: string)
    requires Lacks(pairs, c)
    ensures Match(pairs, a + [c] + b) == Match(pairs, a)
  {
    if pairs != [] {
      PrefixBefore(pairs[0].old', a, c, b);
      MatchBefore(pairs[1..], a, c, b);
    }
  }

  /** A character that occurs in no old string separates what is replaced before it from what is replaced after it. */
  lemma {:induction false} ReplaceApart(pairs: seq<Pair>, a: string, c: char, b: string)
    requires Lacks(pairs, c)
    ensures Replace(pairs, a + [c] + b, false) == Replace(pairs, a, false) + [c] + Replace(pairs, b, false)
    decreases |a|
  {
    var rest := [c] + b;
    assert a + [c] + b == a + rest;
    MatchBefore(pairs, a, c, b);
    if a == "" {
      ReplaceFirst(pairs, rest);
      ReplaceFirst(pairs, a);
      assert a + rest == rest && rest[1..] == b;
    } else {
      var n := First(pairs, a).taken;
      ReplaceApart(pairs, a[n..], c, b);
      assert a[n..] + [c] + b == a[n..] + rest;
      AppendAssoc(Replace(pairs, a[n..], false), [c], Replace(pairs, b, false));
      OccurrenceStep(pairs, a, rest, n, [c] + Replace(pairs, b, false));
      AppendAssoc(Replace(pairs, a, false), [c], Replace(pairs, b, false));
    }
  }

  lemma {:induction false} RewriteApart(stages: seq<seq<Pair>>, a: string, c: char, b: string)
    requires forall i :: 0 <= i < |stages| ==> Lacks(stages[i], c)
    ensures Rewrite(stages, a + [c] + b) == Rewrite(stages, a) + [c] + Rewrite(stages, b)
  {
    if stages != [] {
      ReplaceApart(stages[0], a, c, b);
      RewriteApart(stages[1..], Replace(stages[0], a, false), c, Replace(stages[0], b, false));
    }
  }

  predicate Upper(s: string) {
    forall i :: 0 <= i < |s| ==> 'A' <= s[i] <= 'Z' || s[i] == '_'
  }

  lemma UpperNames()
    ensures Upper("TOKEN_DECLARATION_NAME") && Upper(PLACEHOLDER) && Upper("TOKEN_VAULT")
    ensures Upper("TOKEN_RECEIVER") && Upper("TOKEN_BALANCE")
  {
  }

  lemma PlaceholdersUpper(t: TokenNames, i: nat)
    requires i < |Placeholders(t)|
    ensures Upper(Placeholders(t)[i].old') && Placeholders(t)[i].old' != ""
  {
    UpperNames();
  }

  lemma PlaceholdersLack(t: TokenNames, c: char)
    requires !('A' <= c <= 'Z') && c != '_'
    ensures Lacks(Placeholders(t), c)
  {
    forall i | 0 <= i < |Placeholders(t)|
      ensures Placeholders(t)[i].old' != "" && c !in Placeholders(t)[i].old'
    {
      PlaceholdersUpper(t, i);
    }
  }

  lemma StagesLack(t: TokenNames, known: seq<Pair>, c: char)
    requires c !in t.name && c !in EXTENSION && !('A' <= c <= 'Z') && c != '_' && Lacks(known, c)
    ensures forall i :: 0 <= i < |Stages(t, known)| ==> Lacks(Stages(t, known)[i], c)
  {
    PlaceholdersLack(t, c);
  }

  lemma {:induction false} WordBefore(a: string, b: string)
    ensures WordLength(a + ['\n'] + b) == WordLength(a)
  {
    if a != "" && IsWord(a[0]) {
      assert (a + ['\n'] + b)[1..] == a[1..] + ['\n'] + b;
      WordBefore(a[1..], b);
    }
  }

  lemma FileNameBefore(a: string, b: string)
    ensures FileName(a + ['\n'] + b) == FileName(a)
  {
    WordBefore(a, b);
    var n := WordLength(a);
    assert (a + ['\n'] + b)[n..] == a[n..] + ['\n'] + b;
    PrefixBefore(CLOSING, a[n..], '\n', b);
  }

  lemma {:induction false} QuotedBefore(a: string, b: string)
    ensures Quoted(a + ['\n'] + b) == Quoted(a)
  {
    FileNameBefore(a, b);
    if a != "" {
      assert (a + ['\n'] + b)[1..] == a[1..] + ['\n'] + b;
      QuotedBefore(a[1..], b);
    }
  }

  lemma StepBefore(a: string, b: string)
    requires a != ""
    ensures Step(a + ['\n'] + b) == Step(a)
  {
    var s := a + ['\n'] + b;
    assert s[1..] == a[1..] + ['\n'] + b;
    QuotedBefore(a[1..], b);
    var m := Quoted(a[1..]);
    if m.At? {
      assert s[1..][m.start..m.end] == a[1..][m.start..m.end];
    }
  }

  /** If no step looks beyond the start of `rest`, what precedes it is scanned for itself. */
  lemma {:induction false} ScanApart(step: Stepper, a: string, rest: string)
    requires Advances(step) && forall x :: x != "" ==> step(x + rest) == step(x)
    ensures Scan(step, a + rest) == Scan(step, a) + Scan(step, rest)
    decreases |a|
  {
    if a == "" {
      assert a + rest == rest;
    } else {
      var n := step(a).taken;
      assert (a + rest)[n..] == a[n..] + rest;
      ScanApart(step, a[n..], rest);
      AppendAssoc(step(a).out, Scan(step, a[n..]), Scan(step, rest));
    }
  }

  lemma ScanFirst(step: Stepper, c: char, s: string)
    requires Advances(step) && step([c] + s) == Piece([c], 1)
    ensures Scan(step, [c] + s) == [c] + Scan(step, s)
  {
    assert ([c] + s)[1..] == s;
  }

  lemma ScanLine(step: Stepper, a: string, b: string)
    requires Advances(step)
    requires forall x :: x != "" ==> step(x + (['\n'] + b)) == step(x)
    requires step(['\n'] + b) == Piece(['\n'], 1)
    ensures Scan(step, a + ['\n'] + b) == Scan(step, a) + ['\n'] + Scan(step, b)
  {
    ScanApart(step, a, ['\n'] + b);
    ScanFirst(step, '\n', b);
    AppendAssoc(a, ['\n'], b);
    AppendAssoc(Scan(step, a), ['\n'], Scan(step, b));
  }

  lemma UnquoteApart(a: string, b: string)
    ensures Unquote(a + ['\n'] + b) == Unquote(a) + ['\n'] + Unquote(b)
  {
    forall x | x != ""
      ensures Step(x + (['\n'] + b)) == Step(x)
    {
      StepBefore(x, b);
      AppendAssoc(x, ['\n'], b);
    }
    ScanLine(Step, a, b);
  }

  /** Templates are rewritten line by line. */
  lemma LineByLine(t: TokenNames, known: seq<Pair>, a: string, b: string)
    requires '\n' !in t.name && Lacks(known, '\n')
    ensures TokenCode(t, known, a + ['\n'] + b) == TokenCode(t, known, a) + ['\n'] + TokenCode(t, known, b)
  {
    UnquoteApart(a, b);
    StagesLack(t, known, '\n');
    RewriteApart(Stages(t, known), Unquote(a), '\n', Unquote(b));
  }

  // Import lines

  /** What may stand before the file name inside the quotes: nothing, or a path up to its last separator. */
  predicate IsPath(path: string) {
    '"' !in path && '\n' !in path && (path != "" ==> !IsWord(path[|path| - 1]))
  }

  lemma {:induction false} WordLengthIs(w: string, rest: string)
    requires (forall i :: 0 <= i < |w| ==> IsWord(w[i])) && (rest != "" ==> !IsWord(rest[0]))
    ensures WordLength(w + rest) == |w|
  {
    WordLengthRun(w + rest);
    assert forall i :: 0 <= i < |w| ==> (w + rest)[i] == w[i];
    assert rest != "" ==> (w + rest)[|w|] == rest[0];
  }

  /** The only quote is the closing one, so no shorter part of the path is taken for a file. */
  lemma NoFileInPath(path: string, w: string)
    requires path != "" && IsPath(path) && Word(w)
    ensures FileName(path + w + CLOSING) == None
  {
    var s := path + w + CLOSING;
    var n := WordLength(s);
    WordLengthRun(s);
    assert s[|path| - 1] == path[|path| - 1];
    assert forall i :: 0 <= i < |path| ==> s[i] == path[i];
    assert forall i :: 0 <= i < |w| ==> s[|path| + i] == w[i];
    assert forall i :: 0 <= i < 5 ==> s[|path| + |w| + i] == CLOSING[i];
    assert s[n + 4] != '"';
    assert s[n..][4] == s[n + 4];
  }

  /** The file name found after an opening quote is the one at the end of the path. */
  lemma {:induction false} QuotedPath(path: string, w: string)
    requires IsPath(path) && Word(w)
    ensures Quoted(path + w + CLOSING) == At(|path|, |path| + |w| + |EXTENSION|)
  {
    var s := path + w + CLOSING;
    if path == "" {
      assert s == w + CLOSING;
      WordLengthIs(w, CLOSING);
      assert s[|w|..] == CLOSING;
    } else {
      NoFileInPath(path, w);
      assert s[1..] == path[1..] + w + CLOSING;
      QuotedPath(path[1..], w);
    }
  }

  lemma {:induction false} ScanPlain(step: Stepper, s: string, rest: string)
    requires Advances(step) && forall c, x :: c in s ==> step([c] + x) == Piece([c], 1)
    ensures Scan(step, s + rest) == s + Scan(step, rest)
  {
    if s == "" {
      assert s + rest == rest;
    } else {
      assert s + rest == [s[0]] + (s[1..] + rest);
      ScanFirst(step, s[0], s[1..] + rest);
      ScanPlain(step, s[1..], rest);
      AppendAssoc([s[0]], s[1..], Scan(step, rest));
      assert [s[0]] + s[1..] == s;
    }
  }

  lemma UnquotePlain(s: string, rest: string)
    requires '"' !in s
    ensures Unquote(s + rest) == s + Unquote(rest)
  {
    forall c, x | c in s
      ensures Step([c] + x) == Piece([c], 1)
    {
      assert ([c] + x)[0] == c;
    }
    ScanPlain(Step, s, rest);
  }

  /** A quoted file with its path. */
  function QuotedFile(path: string, w: string): string {
    ['"'] + (path + w + CLOSING)
  }

  lemma ScanOnly(step: Stepper, s: string)
    requires Advances(step) && s != "" && step(s).taken == |s|
    ensures Scan(step, s) == step(s).out
  {
    assert s[|s|..] == "";
  }

  lemma StepAt(s: string, m: Place)
    requires s != "" && s[0] == '"' && Quoted(s[1..]) == m && m.At?
    ensures Step(s) == Piece(s[1..][m.start..m.end], m.end + 2)
  {
  }

  lemma QuotedFileParts(path: string, w: string)
    ensures var s := QuotedFile(path, w);
            && |s| == |path| + |w| + |EXTENSION| + 2 && s[0] == '"' && s[1..] == path + w + CLOSING
    ensures (path + w + CLOSING)[|path|..|path| + |w| + |EXTENSION|] == w + EXTENSION
  {
  }

  lemma UnquoteFile(path: string, w: string)
    requires IsPath(path) && Word(w)
    ensures Unquote(QuotedFile(path, w)) == w + EXTENSION
  {
    QuotedFileParts(path, w);
    QuotedPath(path, w);
    StepAt(QuotedFile(path, w), At(|path|, |path| + |w| + |EXTENSION|));
    ScanOnly(Step, QuotedFile(path, w));
  }

  /** Text in which no match starts is kept. */
  lemma {:induction false} ReplaceKeeps(pairs: seq<Pair>, s: string, rest: string)
    requires forall j :: 0 <= j < |s| ==> Match(pairs, s[j..] + rest) == None
    ensures Replace(pairs, s + rest, false) == s + Replace(pairs, rest, false)
  {
    if s == "" {
      assert s + rest == rest;
    } else {
      assert s[0..] == s;
      assert (s + rest)[1..] == s[1..] + rest;
      assert forall j :: 0 <= j < |s[1..]| ==> s[1..][j..] == s[1 + j..];
      ReplaceKeeps(pairs, s[1..], rest);
    }
  }

  /** Text without a character that all old strings contain is kept. */
  lemma {:induction false} ReplaceWithout(pairs: seq<Pair>, s: string, c: char)
    requires c !in s && forall p :: p in pairs ==> c in p.old'
    ensures Replace(pairs, s, false) == s
  {
    forall j | 0 <= j < |s|
      ensures Match(pairs, s[j..] + "") == None
    {
      assert s[j..] + "" == s[j..];
      NoneWithout(pairs, s[j..], c);
    }
    ReplaceKeeps(pairs, s, "");
    assert s + "" == s;
    NoneWithout(pairs, "", c);
  }

  lemma {:induction false} NoneWithout(pairs: seq<Pair>, s: string, c: char)
    requires c !in s && forall p :: p in pairs ==> c in p.old'
    ensures Match(pairs, s) == None
  {
    if pairs != [] {
      var old' := pairs[0].old';
      assert pairs[0] in pairs;
      var k :| 0 <= k < |old'| && old'[k] == c;
      if |old'| <= |s| {
        assert s[..|old'|][k] == s[k] && s[k] in s;
      }
      NoneWithout(pairs[1..], s, c);
    }
  }

  predicate IsSuffix(a: string, b: string) {
    |a| <= |b| && b[|b| - |a|..] == a
  }

  lemma MatchSource(t: TokenNames, text: string)
    ensures Match(SourceFile(t), text) == if t.name + EXTENSION <= text then Some(SourceFile(t)[0]) else None
  {
    assert SourceFile(t)[1..] == [];
  }

  /** The token's own file is found in a file name exactly at a suffix equal to the token's name. */
  lemma OwnFileAt(t: TokenNames, w: string, j: nat)
    requires Word(t.name) && Word(w) && j < |w| + 4
    ensures (t.name + EXTENSION <= (w + EXTENSION)[j..]) <==> j + |t.name| == |w| && w[j..] == t.name
  {
    var old', text := t.name + EXTENSION, (w + EXTENSION)[j..];
    var n := |t.name|;
    assert old'[n] == '.' && old'[..n] == t.name;
    assert forall i :: 0 <= i < |text| ==> text[i] == (w + EXTENSION)[j + i];
    if j + n == |w| {
      assert text == w[j..] + EXTENSION && text[..n] == w[j..];
    } else if |old'| <= |text| {
      assert text[..|old'|][n] == text[n];
      assert text[n] != '.';
    }
  }

  /** The second stage on the name of another file. */
  lemma SourceStageOther(t: TokenNames, w: string)
    requires Word(t.name) && Word(w) && !IsSuffix(t.name, w)
    ensures Replace(SourceFile(t), w + EXTENSION, false) == w + EXTENSION
  {
    var file := w + EXTENSION;
    forall j | 0 <= j < |file|
      ensures Match(SourceFile(t), file[j..] + "") == None
    {
      assert file[j..] + "" == file[j..];
      OwnFileAt(t, w, j);
      MatchSource(t, file[j..]);
    }
    ReplaceKeeps(SourceFile(t), file, "");
    ReplaceNothing(SourceFile(t));
    assert file + "" == file;
  }

  lemma ReplaceNothing(pairs: seq<Pair>)
    requires forall p :: p in pairs ==> p.old' != ""
    ensures Replace(pairs, "", false) == ""
  {
    assert Match(pairs, "") == None;
  }

  lemma ReplaceWhole(pairs: seq<Pair>, p: Pair)
    requires Match(pairs, p.old') == Some(p) && forall p :: p in pairs ==> p.old' != ""
    ensures Replace(pairs, p.old', false) == p.new'
  {
    assert p.old'[|p.old'|..] == "";
    ReplaceNothing(pairs);
  }

  /** The second stage on the name of the token's own file, or one that ends like it. */
  lemma SourceStageOwn(t: TokenNames, u: string)
    requires Word(t.name) && (u == "" || Word(u))
    ensures Replace(SourceFile(t), u + t.name + EXTENSION, false) == u + PLACEHOLDER
  {
    var w, old' := u + t.name, t.name + EXTENSION;
    forall j | 0 <= j < |u|
      ensures Match(SourceFile(t), u[j..] + old') == None
    {
      assert u[j..] + old' == (w + EXTENSION)[j..];
      OwnFileAt(t, w, j);
      MatchSource(t, u[j..] + old');
    }
    ReplaceKeeps(SourceFile(t), u, old');
    MatchSource(t, old');
    ReplaceWhole(SourceFile(t), SourceFile(t)[0]);
    assert u + old' == u + t.name + EXTENSION;
  }

  /** How all placeholders start. */
  const MARK := "TOKEN_"

  predicate MarkAt(s: string, j: nat) {
    j <= |s| && MARK <= s[j..]
  }

  ghost predicate Mentions(s: string) {
    exists j: nat :: MarkAt(s, j)
  }

  lemma MarkAtPart(u: string, rest: string, j: nat)
    ensures MarkAt(u, j) ==> MarkAt(u + rest, j)
    ensures MarkAt(u + rest, j) && j + |MARK| <= |u| ==> MarkAt(u, j)
  {
    if j <= |u| {
      assert (u + rest)[j..] == u[j..] + rest;
      if j + |MARK| <= |u| {
        assert (u[j..] + rest)[..|MARK|] == u[j..][..|MARK|];
      }
    }
  }

  lemma PlaceholderMarked(t: TokenNames, p: Pair)
    requires p in Placeholders(t)
    ensures MARK <= p.old'
  {
  }

  lemma PrefixTrans(a: string, b: string, c: string)
    requires a <= b <= c
    ensures a <= c
  {
    assert a == b[..|a|] == c[..|a|];
  }

  lemma NoMarkNoMatch(t: TokenNames, text: string)
    requires !(MARK <= text)
    ensures Match(Placeholders(t), text) == None
  {
    forall p | p in Placeholders(t)
      ensures !(p.old' <= text)
    {
      PlaceholderMarked(t, p);
      if p.old' <= text {
        PrefixTrans(MARK, p.old', text);
      }
    }
  }

  lemma PlaceholderReplaced(t: TokenNames)
    ensures Replace(Placeholders(t), PLACEHOLDER, false) == t.address
  {
    var pairs := Placeholders(t);
    assert "TOKEN_DECLARATION_NAME"[6] == 'D' && PLACEHOLDER[6] == 'A';
    assert pairs[1..][0] == Pair(PLACEHOLDER, t.address);
    assert Match(pairs, PLACEHOLDER) == Match(pairs[1..], PLACEHOLDER) == Some(pairs[1]);
    ReplaceWhole(pairs, pairs[1]);
  }

  /** No placeholder starts in front of another one and reaches into it. */
  lemma MarkBefore(u: string, j: nat)
    requires !Mentions(u) && j < |u|
    ensures !(MARK <= u[j..] + PLACEHOLDER)
  {
    var text := u[j..] + PLACEHOLDER;
    assert text == (u + PLACEHOLDER)[j..];
    if j + |MARK| <= |u| {
      MarkAtPart(u, PLACEHOLDER, j);
      assert !MarkAt(u, j);
    } else {
      assert text[|u| - j] == 'T' && MARK[|u| - j] != 'T';
    }
  }

  /** The third stage on what the second one left of a file name. */
  lemma PlaceholderStage(t: TokenNames, u: string)
    requires !Mentions(u)
    ensures Replace(Placeholders(t), u + PLACEHOLDER, false) == u + t.address
  {
    forall j | 0 <= j < |u|
      ensures Match(Placeholders(t), u[j..] + PLACEHOLDER) == None
    {
      MarkBefore(u, j);
      NoMarkNoMatch(t, u[j..] + PLACEHOLDER);
    }
    ReplaceKeeps(Placeholders(t), u, PLACEHOLDER);
    PlaceholderReplaced(t);
  }

  lemma NoPlaceholder(t: TokenNames, s: string)
    requires !Mentions(s)
    ensures Replace(Placeholders(t), s, false) == s
  {
    forall j | 0 <= j < |s|
      ensures Match(Placeholders(t), s[j..] + "") == None
    {
      assert s[j..] + "" == s[j..];
      assert !MarkAt(s, j);
      NoMarkNoMatch(t, s[j..]);
    }
    ReplaceKeeps(Placeholders(t), s, "");
    assert s + "" == s;
    NoMarkNoMatch(t, "");
  }

  lemma MentionsPart(u: string, rest: string)
    ensures Mentions(u) ==> Mentions(u + rest)
    ensures Mentions(u + EXTENSION) ==> Mentions(u)
  {
    if j: nat :| MarkAt(u, j) {
      MarkAtPart(u, rest, j);
    }
    var file := u + EXTENSION;
    if j: nat :| MarkAt(file, j) {
      var text := file[j..];
      assert forall i :: 0 <= i < |MARK| ==> text[i] == MARK[i] && text[i] == file[j + i];
      assert MARK[5] == '_' && file[j + 5] == '_';
      assert forall i :: |u| <= i < |file| ==> file[i] == EXTENSION[i - |u|] && file[i] != '_';
      MarkAtPart(u, EXTENSION, j);
    }
  }

  /**
    What becomes of a file name: the token's own file becomes the token's address, another file what the
    known addresses say, except that of a name which merely ends in the token's name the end is replaced.
   */
  function FileCode(t: TokenNames, known: seq<Pair>, w: string): string {
    Replace(known, if IsSuffix(t.name, w) then w[..|w| - |t.name|] + t.address else w + EXTENSION, false)
  }

  lemma RewriteThree(a: seq<Pair>, b: seq<Pair>, c: seq<Pair>, code: string)
    ensures Rewrite([a, b, c], code) == Replace(c, Replace(b, Replace(a, code, false), false), false)
  {
    var code1 := Replace(a, code, false);
    var code2 := Replace(b, code1, false);
    assert [a, b, c][1..] == [b, c] && [b, c][1..] == [c] && [c][1..] == [];
    assert Rewrite([c], code2) == Replace(c, code2, false);
    assert Rewrite([b, c], code1) == Rewrite([c], code2);
  }

  lemma OwnFileRewritten(t: TokenNames, known: seq<Pair>, u: string)
    requires Word(t.name) && (u == "" || Word(u)) && !Mentions(u)
    ensures Rewrite(Stages(t, known), u + t.name + EXTENSION) == Replace(known, u + t.address, false)
  {
    RewriteThree(SourceFile(t), Placeholders(t), known, u + t.name + EXTENSION);
    SourceStageOwn(t, u);
    PlaceholderStage(t, u);
  }

  lemma OtherFileRewritten(t: TokenNames, known: seq<Pair>, w: string)
    requires Word(t.name) && Word(w) && !Mentions(w) && !IsSuffix(t.name, w)
    ensures Rewrite(Stages(t, known), w + EXTENSION) == Replace(known, w + EXTENSION, false)
  {
    RewriteThree(SourceFile(t), Placeholders(t), known, w + EXTENSION);
    SourceStageOther(t, w);
    MentionsPart(w, "");
    NoPlaceholder(t, w + EXTENSION);
  }

  lemma FileNameRewritten(t: TokenNames, known: seq<Pair>, w: string)
    requires Word(t.name) && Word(w) && (!Mentions(w) || w == t.name)
    ensures Rewrite(Stages(t, known), w + EXTENSION) == FileCode(t, known, w)
  {
    if IsSuffix(t.name, w) {
      var u := w[..|w| - |t.name|];
      assert u + t.name == w;
      MentionsPart(u, t.name);
      OwnFileRewritten(t, known, u);
    } else {
      OtherFileRewritten(t, known, w);
    }
  }

  /** The rewriting of a line that ends in a quoted file, set off by a space, as import statements do. */
  lemma ImportLine(t: TokenNames, known: seq<Pair>, s: string, path: string, w: string)
    requires Word(t.name) && Word(w) && IsPath(path) && '"' !in s && Lacks(known, ' ')
    requires !Mentions(w) || w == t.name
    ensures TokenCode(t, known, s + [' '] + QuotedFile(path, w))
         == TokenCode(t, known, s) + [' '] + FileCode(t, known, w)
  {
    UnquotePlain(s + [' '], QuotedFile(path, w));
    UnquoteFile(path, w);
    UnquotePlain(s, "");
    assert s + "" == s;
    StagesLack(t, known, ' ');
    RewriteApart(Stages(t, known), s, ' ', w + EXTENSION);
    FileNameRewritten(t, known, w);
  }

  /** A line without quotes, dots and placeholders stays as it is. */
  lemma PlainLine(t: TokenNames, known: seq<Pair>, s: string)
    requires '"' !in s && '.' !in s && !Mentions(s) && forall p :: p in known ==> '.' in p.old'
    ensures TokenCode(t, known, s) == s
  {
    UnquotePlain(s, "");
    assert s + "" == s;
    RewriteThree(SourceFile(t), Placeholders(t), known, s);
    assert SourceFile(t)[0].old'[|t.name|] == '.';
    ReplaceWithout(SourceFile(t), s, '.');
    NoPlaceholder(t, s);
    ReplaceWithout(known, s, '.');
  }

  lemma KnownLack(ft: string, nft: string, c: char)
    requires c !in NFT_IMPORT && c !in FT_IMPORT
    ensures Lacks(Known(ft, nft), c)
    ensures forall p :: p in Known(ft, nft) ==> '.' in p.old'
  {
    assert EXTENSION[0] == '.' && FT_IMPORT[|FT_NAME|] == '.' && NFT_IMPORT[|NFT_NAME|] == '.';
  }

  /** An import of the token's own file always becomes the token's address. */
  lemma OwnImport(t: TokenNames, ft: string, nft: string, s: string, path: string)
    requires Word(t.name) && IsPath(path) && '"' !in s && '.' !in t.address
    ensures TokenCode(t, Known(ft, nft), s + [' '] + QuotedFile(path, t.name))
         == TokenCode(t, Known(ft, nft), s) + [' '] + t.address
  {
    assert t.name[|t.name| - |t.name|..] == t.name && t.name[..0] + t.address == t.address;
    KnownLack(ft, nft, ' ');
    ImportLine(t, Known(ft, nft), s, path, t.name);
    ReplaceWithout(Known(ft, nft), t.address, '.');
  }

  // Placeholders

  /** What stands for a placeholder in a token's code. */
  predicate StandsFor(t: TokenNames, placeholder: string, value: string) {
    || (placeholder == "TOKEN_DECLARATION_NAME" && value == t.name)
    || (placeholder == "TOKEN_ADDRESS" && value == t.address)
    || (placeholder == "TOKEN_VAULT" && value == t.nameLowerCase + "Vault")
    || (placeholder == "TOKEN_RECEIVER" && value == t.nameLowerCase + "Receiver")
    || (placeholder == "TOKEN_BALANCE" && value == t.nameLowerCase + "Balance")
  }

  lemma PlaceholderIs(t: TokenNames, placeholder: string, value: string)
    requires StandsFor(t, placeholder, value)
    ensures Pair(placeholder, value) in Placeholders(t)
  {
    var pairs := Placeholders(t);
    assert pairs[0] in pairs && pairs[1] in pairs && pairs[2] in pairs && pairs[3] in pairs && pairs[4] in pairs;
  }

  /** How placeholders go on after their common start. */
  lemma PlaceholdersDiffer(t: TokenNames, p: Pair, q: Pair)
    requires p in Placeholders(t) && q in Placeholders(t) && p.old' <= q.old'
    ensures p == q
  {
    var pairs := Placeholders(t);
    assert pairs[0].old'[6] == 'D' && pairs[1].old'[6] == 'A' && pairs[2].old'[6] == 'V';
    assert pairs[3].old'[6] == 'R' && pairs[4].old'[6] == 'B';
    assert |p.old'| > 6 && p.old'[6] == q.old'[6];
  }

  lemma PlaceholderValue(t: TokenNames, p: Pair)
    requires p in Placeholders(t)
    ensures Replace(Placeholders(t), p.old', false) == p.new'
  {
    var m := Match(Placeholders(t), p.old');
    if m.Some? {
      PlaceholdersDiffer(t, m.value, p);
    }
    forall q | q in Placeholders(t)
      ensures q.old' != ""
    {
      PlaceholderMarked(t, q);
    }
    ReplaceWhole(Placeholders(t), p);
  }

  /** A character that no stage replaces, nor anything with it. */
  predicate Separates(t: TokenNames, known: seq<Pair>, c: char) {
    c !in t.name && c !in EXTENSION && !('A' <= c <= 'Z') && c != '_' && c != '"' && Lacks(known, c)
  }

  lemma PlaceholderRewritten(t: TokenNames, known: seq<Pair>, p: Pair)
    requires p in Placeholders(t) && '.' !in p.old' && '.' !in p.new' && forall q :: q in known ==> '.' in q.old'
    ensures Rewrite(Stages(t, known), p.old') == p.new'
  {
    RewriteThree(SourceFile(t), Placeholders(t), known, p.old');
    assert SourceFile(t)[0].old'[|t.name|] == '.';
    ReplaceWithout(SourceFile(t), p.old', '.');
    PlaceholderValue(t, p);
    ReplaceWithout(known, p.new', '.');
  }

  lemma PlaceholderShape(t: TokenNames, p: Pair)
    requires p in Placeholders(t)
    ensures '.' !in p.old' && '"' !in p.old'
  {
    var i :| 0 <= i < |Placeholders(t)| && Placeholders(t)[i] == p;
    PlaceholdersUpper(t, i);
  }

  lemma UnquoteAround(a: string, c: char, p: string, d: char, b: string)
    requires '"' !in a && c != '"' && '"' !in p && d != '"'
    ensures Unquote(a + [c] + (p + [d] + b)) == a + [c] + (p + [d] + Unquote(b))
  {
    UnquotePlain(a + [c] + p + [d], b);
    assert a + [c] + (p + [d] + b) == a + [c] + p + [d] + b;
  }

  /**
    A placeholder between two characters no stage replaces becomes what stands for it, and what precedes and
    follows is rewritten for itself.
   */
  lemma PlaceholderCode(
      t: TokenNames, known: seq<Pair>, a: string, c: char, placeholder: string, value: string, d: char, b: string)
    requires StandsFor(t, placeholder, value) && '.' !in value && '"' !in a
    requires Separates(t, known, c) && Separates(t, known, d) && forall q :: q in known ==> '.' in q.old'
    ensures TokenCode(t, known, a + [c] + (placeholder + [d] + b))
         == TokenCode(t, known, a) + [c] + (value + [d] + TokenCode(t, known, b))
  {
    var p := Pair(placeholder, value);
    PlaceholderIs(t, placeholder, value);
    PlaceholderShape(t, p);
    UnquoteAround(a, c, placeholder, d, b);
    UnquotePlain(a, "");
    assert a + "" == a;
    StagesLack(t, known, c);
    StagesLack(t, known, d);
    RewriteApart(Stages(t, known), a, c, placeholder + [d] + Unquote(b));
    RewriteApart(Stages(t, known), placeholder, d, Unquote(b));
    PlaceholderRewritten(t, known, p);
  }

  /** A standard file, and its address. */
  function Standard(fungible: bool): string {
    if fungible then FT_NAME else NFT_NAME
  }

  lemma StandardNames()
    ensures Word(FT_NAME) && '_' !in FT_NAME && '.' !in FT_NAME && FT_NAME[0] == 'F'
    ensures Word(NFT_NAME) && '_' !in NFT_NAME && '.' !in NFT_NAME && NFT_NAME[0] == 'N'
  {
  }

  lemma KnownFile(ft: string, nft: string, fungible: bool)
    ensures Replace(Known(ft, nft), Standard(fungible) + EXTENSION, false) == if fungible then ft else nft
  {
    StandardNames();
    var known := Known(ft, nft);
    assert FT_IMPORT[0] == 'F' && NFT_IMPORT[0] == 'N';
    if fungible {
      assert Match(known, FT_IMPORT) == Some(known[0]);
      ReplaceWhole(known, known[0]);
    } else {
      assert known[1..][0] == known[1];
      assert Match(known, NFT_IMPORT) == Match(known[1..], NFT_IMPORT) == Some(known[1]);
      ReplaceWhole(known, known[1]);
    }
  }

  lemma NoUnderscoreNoMark(s: string)
    requires '_' !in s
    ensures !Mentions(s)
  {
    forall j: nat
      ensures !MarkAt(s, j)
    {
      if j + |MARK| <= |s| {
        assert s[j..][5] == s[j + 5] && MARK[5] == '_';
      }
    }
  }

  lemma FileCodeCut(t: TokenNames, ft: string, nft: string, w: string)
    requires Word(w) && IsSuffix(t.name, w) && '.' !in t.address
    ensures FileCode(t, Known(ft, nft), w) == w[..|w| - |t.name|] + t.address
  {
    KnownLack(ft, nft, ' ');
    ReplaceWithout(Known(ft, nft), w[..|w| - |t.name|] + t.address, '.');
  }

  lemma StandardFileExactly(t: TokenNames, ft: string, nft: string, fungible: bool)
    requires Word(t.name) && '.' !in t.address && "0x" <= ft && "0x" <= nft
    ensures FileCode(t, Known(ft, nft), Standard(fungible)) == (if fungible then ft else nft)
       <==> !IsSuffix(t.name, Standard(fungible))
            || (t.name == Standard(fungible) && t.address == if fungible then ft else nft)
  {
    var w, address := Standard(fungible), if fungible then ft else nft;
    KnownFile(ft, nft, fungible);
    StandardNames();
    var r := FileCode(t, Known(ft, nft), w);
    if IsSuffix(t.name, w) {
      FileCodeCut(t, ft, nft, w);
      if |t.name| == |w| {
        assert r == t.address && t.name == w;
      } else {
        assert r[0] == w[0] && address[0] == '0';
      }
    }
  }

  lemma SamePrefix(a: string, b: string, c: string)
    ensures a + b == a + c <==> b == c
  {
    assert (a + b)[|a|..] == b && (a + c)[|a|..] == c;
  }

  /**
    An import of a standard file becomes its known address if, and only if, the token's name is not a
    suffix of the file's name; a token of that very name has to have that very address.
   */
  lemma StandardImportExactly(t: TokenNames, ft: string, nft: string, s: string, path: string, fungible: bool)
    requires Word(t.name) && IsPath(path) && '"' !in s && '.' !in t.address
    requires "0x" <= ft && "0x" <= nft
    ensures TokenCode(t, Known(ft, nft), s + [' '] + QuotedFile(path, Standard(fungible)))
              == TokenCode(t, Known(ft, nft), s) + [' '] + (if fungible then ft else nft)
       <==> !IsSuffix(t.name, Standard(fungible))
            || (t.name == Standard(fungible) && t.address == if fungible then ft else nft)
  {
    var known := Known(ft, nft);
    KnownLack(ft, nft, ' ');
    StandardNames();
    NoUnderscoreNoMark(Standard(fungible));
    ImportLine(t, known, s, path, Standard(fungible));
    SamePrefix(TokenCode(t, known, s) + [' '], FileCode(t, known, Standard(fungible)), if fungible then ft else nft);
    StandardFileExactly(t, ft, nft, fungible);
  }

  lemma EndsInToken(fungible: bool)
    ensures var w := Standard(fungible); |w| >= 5 && w[|w| - 5..] == "Token" && Word(w) && !Mentions(w)
    ensures Word("Token")
  {
    StandardNames();
    NoUnderscoreNoMark(Standard(fungible));
    assert FT_NAME[8..] == "Token" && NFT_NAME[11..] == "Token";
  }

  /** A token named `Token` makes its address the end of a standard contract's name. */
  lemma TokenNamedToken(ft: string, nft: string, t: TokenNames, s: string, path: string, fungible: bool)
    requires IsPath(path) && '"' !in s && '.' !in t.address && t.name == "Token"
    ensures |Standard(fungible)| >= 5
    ensures TokenCode(t, Known(ft, nft), s + [' '] + QuotedFile(path, Standard(fungible)))
         == TokenCode(t, Known(ft, nft), s) + [' '] + (Standard(fungible)[..|Standard(fungible)| - 5] + t.address)
  {
    var known, w := Known(ft, nft), Standard(fungible);
    EndsInToken(fungible);
    KnownLack(ft, nft, ' ');
    ImportLine(t, known, s, path, w);
    FileCodeCut(t, ft, nft, w);
  }
}

/**
  Event type strings: printed from a token when the listener subscribes to its deposits, and parsed
  back to the token when an event arrives.
 */
module EventTypes {
  import opened Prelude
  import opened Tokens
  import opened Addresses

  // Printing

  function EventName(typ: TokenType): string {
    match typ
    case FT => "TokensDeposited"
    case NFT => "Deposit"
    case NotSpecified => ""
  }

  function EventType(address: string, tokenName: string, eventName: string): string {
    "A." + address + "." + tokenName + "." + eventName
  }

  function DepositEventType(t: Token): string {
    EventType(TrimPrefix(t.address, PREFIX), t.name, EventName(t.typ))
  }

  /** The events the two token standards name, as `A.<address>.<contract>.<event>`. */
  lemma DepositEvents(t: Token)
    ensures t.typ == FT ==>
      DepositEventType(t) == "A." + TrimPrefix(t.address, PREFIX) + "." + t.name + ".TokensDeposited"
    ensures t.typ == NFT ==>
      DepositEventType(t) == "A." + TrimPrefix(t.address, PREFIX) + "." + t.name + ".Deposit"
  {
  }

  // Splitting

  function Split(s: string, sep: char): (parts: seq<string>)
    ensures parts != []
  {
    if s == "" then [""]
    else
      var rest := Split(s[1..], sep);
      if s[0] == sep then [""] + rest else [[s[0]] + rest[0]] + rest[1..]
  }

  function Count(s: string, c: char): nat {
    if s == "" then 0 else (if s[0] == c then 1 else 0) + Count(s[1..], c)
  }

  lemma {:induction false} SplitCounts(s: string, sep: char)
    ensures |Split(s, sep)| == Count(s, sep) + 1
  {
    if s != "" {
      SplitCounts(s[1..], sep);
    }
  }

  lemma {:induction false} CountConcat(a: string, b: string, c: char)
    ensures Count(a + b, c) == Count(a, c) + Count(b, c)
  {
    if a == "" {
      assert a + b == b;
    } else {
      assert (a + b)[1..] == a[1..] + b;
      CountConcat(a[1..], b, c);
    }
  }

  lemma {:induction false} CountZero(s: string, c: char)
    ensures Count(s, c) == 0 <==> c !in s
  {
    if s != "" {
      CountZero(s[1..], c);
    }
  }

  lemma {:induction false} SplitWhole(s: string, sep: char)
    requires sep !in s
    ensures Split(s, sep) == [s]
  {
    if s != "" {
      SplitWhole(s[1..], sep);
      assert [s[0]] + s[1..] == s;
    }
  }

  lemma {:induction false} SplitFirst(a: string, rest: string, sep: char)
    requires sep !in a
    ensures Split(a + [sep] + rest, sep) == [a] + Split(rest, sep)
  {
    var s := a + [sep] + rest;
    if a == "" {
      assert s[1..] == rest;
    } else {
      SplitFirst(a[1..], rest, sep);
      assert s[1..] == a[1..] + [sep] + rest;
      assert [a[0]] + a[1..] == a;
    }
  }

  lemma SplitsForward(address: string, name: string, event: string)
    requires '.' !in address && '.' !in name && '.' !in event
    ensures Split(EventType(address, name, event), '.') == ["A", address, name, event]
  {
    assert EventType(address, name, event) == "A" + ['.'] + (address + ['.'] + (name + ['.'] + event));
    SplitFirst("A", address + ['.'] + (name + ['.'] + event), '.');
    SplitFirst(address, name + ['.'] + event, '.');
    SplitFirst(name, event, '.');
    SplitWhole(event, '.');
  }

  lemma CountDotted(a: string, rest: string)
    ensures Count(a + ['.'] + rest, '.') == Count(a, '.') + 1 + Count(rest, '.')
  {
    CountConcat(a + ['.'], rest, '.');
    CountConcat(a, ['.'], '.');
  }

  lemma DotsCounted(address: string, name: string, event: string)
    ensures |Split(EventType(address, name, event), '.')|
         == 4 + Count(address, '.') + Count(name, '.') + Count(event, '.')
  {
    assert EventType(address, name, event) == "A" + ['.'] + (address + ['.'] + (name + ['.'] + event));
    SplitCounts(EventType(address, name, event), '.');
    CountDotted("A", address + ['.'] + (name + ['.'] + event));
    CountDotted(address, name + ['.'] + event);
    CountDotted(name, event);
  }

  /** An event type splits back into the parts it was printed from exactly when none of them contains a dot. */
  lemma SplitsBack(address: string, name: string, event: string)
    ensures Split(EventType(address, name, event), '.') == ["A", address, name, event]
       <==> '.' !in address && '.' !in name && '.' !in event
  {
    if '.' !in address && '.' !in name && '.' !in event {
      SplitsForward(address, name, event);
    } else {
      DotsCounted(address, name, event);
      CountZero(address, '.');
      CountZero(name, '.');
      CountZero(event, '.');
    }
  }

  // Looking a name up

  function LowerChar(c: char): char {
    if 'A' <= c <= 'Z' then c + ('a' - 'A') else c
  }

  function Lower(s: string): string {
    seq(|s|, i requires 0 <= i < |s| => LowerChar(s[i]))
  }

  /**
    SQL pattern matching: `%` matches any string, `_` any character, and a backslash quotes what follows
    it, if anything does.
   */
  predicate Like(s: string, pattern: string)
    decreases |pattern|, |s|
  {
    if pattern == "" then s == ""
    else if pattern[0] == '%' then Like(s, pattern[1..]) || (s != "" && Like(s[1..], pattern))
    else if s == "" then false
    else if pattern[0] == '_' then Like(s[1..], pattern[1..])
    else if pattern[0] == '\\' && |pattern| > 1 then s[0] == pattern[1] && Like(s[1..], pattern[2..])
    else s[0] == pattern[0] && Like(s[1..], pattern[1..])
  }

  predicate Literal(pattern: string) {
    '%' !in pattern && '_' !in pattern && forall i :: 0 <= i < |pattern| - 1 ==> pattern[i] != '\\'
  }

  lemma LiteralRest(pattern: string)
    requires pattern != ""
    ensures Literal(pattern)
       <==> pattern[0] != '%' && pattern[0] != '_' && (pattern[0] == '\\' ==> |pattern| == 1) && Literal(pattern[1..])
  {
    assert pattern == [pattern[0]] + pattern[1..];
    assert forall i :: 0 < i < |pattern| ==> pattern[i] == pattern[1..][i - 1];
  }

  lemma {:induction false} LiteralLike(s: string, pattern: string)
    requires Literal(pattern)
    ensures Like(s, pattern) <==> s == pattern
  {
    if pattern != "" {
      LiteralRest(pattern);
      if s != "" {
        LiteralLike(s[1..], pattern[1..]);
        assert s == [s[0]] + s[1..] && pattern == [pattern[0]] + pattern[1..];
      }
    }
  }

  /** A string the pattern matches: it is the pattern itself only if that has nothing to interpret. */
  function Witness(pattern: string): string {
    if pattern == "" then ""
    else if pattern[0] == '%' then Witness(pattern[1..])
    else if pattern[0] == '_' then "x" + Witness(pattern[1..])
    else if pattern[0] == '\\' && |pattern| > 1 then [pattern[1]] + Witness(pattern[2..])
    else [pattern[0]] + Witness(pattern[1..])
  }

  lemma {:induction false} WitnessMatches(pattern: string)
    ensures Like(Witness(pattern), pattern)
  {
    if pattern != "" {
      if pattern[0] == '\\' && |pattern| > 1 {
        WitnessMatches(pattern[2..]);
        assert Witness(pattern)[1..] == Witness(pattern[2..]);
      } else {
        WitnessMatches(pattern[1..]);
        if pattern[0] != '%' {
          assert Witness(pattern)[1..] == Witness(pattern[1..]);
        }
      }
    }
  }

  lemma {:induction false} WitnessShort(pattern: string)
    ensures |Witness(pattern)| <= |pattern|
  {
    if pattern != "" {
      if pattern[0] == '\\' && |pattern| > 1 {
        WitnessShort(pattern[2..]);
      } else {
        WitnessShort(pattern[1..]);
      }
    }
  }

  lemma {:induction false} WitnessDiffers(pattern: string)
    ensures Witness(pattern) == pattern <==> Literal(pattern)
  {
    if pattern != "" {
      LiteralRest(pattern);
      WitnessDiffers(pattern[1..]);
      assert pattern == [pattern[0]] + pattern[1..];
      if pattern[0] == '%' {
        WitnessShort(pattern[1..]);
      } else if pattern[0] == '\\' && |pattern| > 1 {
        WitnessShort(pattern[2..]);
      } else if pattern[0] == '_' {
        assert Witness(pattern)[0] == 'x';
      } else {
        assert Witness(pattern)[0] == pattern[0] && Witness(pattern)[1..] == Witness(pattern[1..]);
      }
    }
  }

  predicate IsLower(s: string) {
    forall i :: 0 <= i < |s| ==> LowerChar(s[i]) == s[i]
  }

  lemma {:induction false} WitnessLower(pattern: string)
    requires IsLower(pattern)
    ensures IsLower(Witness(pattern))
  {
    if pattern != "" {
      if pattern[0] == '\\' && |pattern| > 1 {
        WitnessLower(pattern[2..]);
      } else {
        WitnessLower(pattern[1..]);
      }
    }
  }

  lemma LowerIs(s: string)
    ensures IsLower(Lower(s))
    ensures IsLower(s) ==> Lower(s) == s
  {
  }

  /** A percent sign matches anything, and quoted it matches itself. */
  lemma {:induction false} PercentLike(s: string)
    ensures Like(s, "%")
    ensures Like(s, "\\%") <==> s == "%"
  {
    assert "%"[1..] == "" && "\\%"[2..] == "";
    if s != "" {
      PercentLike(s[1..]);
    }
  }

  /** A pattern with underscores alone matches character by character. */
  lemma {:induction false} UnderscoreLike(s: string, pattern: string)
    requires '%' !in pattern && '\\' !in pattern
    ensures Like(s, pattern)
       <==> |s| == |pattern| && forall i :: 0 <= i < |s| ==> pattern[i] == '_' || s[i] == pattern[i]
  {
    if pattern != "" && s != "" {
      UnderscoreLike(s[1..], pattern[1..]);
      assert forall i :: 0 < i < |s| ==> s[i] == s[1..][i - 1];
      assert forall i :: 0 < i < |pattern| ==> pattern[i] == pattern[1..][i - 1];
    }
  }

  /** Tokens from the configuration by lower-case name, and rows of the database in the order of their ids. */
  datatype Store = Store(temp: map<string, Token>, rows: seq<Token>)

  function FirstLike(rows: seq<Token>, name: string): Option<Token> {
    if rows == [] then None
    else if Like(Lower(rows[0].name), Lower(name)) then Some(rows[0])
    else FirstLike(rows[1..], name)
  }

  function GetByName(store: Store, name: string): Option<Token> {
    if Lower(name) in store.temp then Some(store.temp[Lower(name)]) else FirstLike(store.rows, name)
  }

  predicate Stored(store: Store, t: Token) {
    (Lower(t.name) in store.temp && store.temp[Lower(t.name)] == t) || t in store.rows
  }

  /** Configured tokens are filed under their own names, and no two tokens share a name up to case. */
  ghost predicate UniqueNames(store: Store) {
    && (forall k :: k in store.temp ==> Lower(store.temp[k].name) == k)
    && (forall t, u :: Stored(store, t) && Stored(store, u) && Lower(t.name) == Lower(u.name) ==> t == u)
  }

  lemma {:induction false} FirstLikeLiteral(rows: seq<Token>, name: string)
    requires Literal(Lower(name))
    ensures var r := FirstLike(rows, name);
            if r.Some? then r.value in rows && Lower(r.value.name) == Lower(name)
            else forall t :: t in rows ==> Lower(t.name) != Lower(name)
  {
    if rows != [] {
      LiteralLike(Lower(rows[0].name), Lower(name));
      FirstLikeLiteral(rows[1..], name);
    }
  }

  /** A stored token is found under its name in any case, if the name has no pattern characters. */
  lemma FoundByName(store: Store, t: Token, name: string)
    requires UniqueNames(store) && Stored(store, t) && Lower(name) == Lower(t.name) && Literal(Lower(name))
    ensures GetByName(store, name) == Some(t)
  {
    if Lower(name) in store.temp {
      assert Stored(store, store.temp[Lower(name)]);
    } else {
      FirstLikeLiteral(store.rows, name);
      assert Stored(store, FirstLike(store.rows, name).value);
    }
  }

  /** A store of two tokens, in which a lookup meets the older one first. */
  function TwoTokens(older: Token, t: Token): Store {
    Store(map[], [older, t])
  }

  lemma OlderFound(older: Token, t: Token)
    requires Lower(older.name) != Lower(t.name) && Like(Lower(older.name), Lower(t.name))
    ensures UniqueNames(TwoTokens(older, t)) && Stored(TwoTokens(older, t), t)
    ensures GetByName(TwoTokens(older, t), t.name) == Some(older)
  {
    var store := TwoTokens(older, t);
    assert store.rows[1] == t;
    assert forall u :: Stored(store, u) <==> u == older || u == t;
  }

  /** A token with an interpreted character in its name is shadowed by an older one that its name matches. */
  lemma Shadowed(t: Token, address: string)
    requires !Literal(Lower(t.name))
    ensures var older := Token(Witness(Lower(t.name)), address, t.typ);
            && UniqueNames(TwoTokens(older, t)) && Stored(TwoTokens(older, t), t)
            && GetByName(TwoTokens(older, t), t.name) == Some(older)
  {
    var pattern := Lower(t.name);
    LowerIs(t.name);
    WitnessMatches(pattern);
    WitnessDiffers(pattern);
    WitnessLower(pattern);
    LowerIs(Witness(pattern));
    OlderFound(Token(Witness(pattern), address, t.typ), t);
  }

  /**
    A token is found under its own name in every store with unique names if and only if the name has
    nothing to interpret.
   */
  lemma FoundExactly(t: Token)
    ensures (forall store :: UniqueNames(store) && Stored(store, t) ==> GetByName(store, t.name) == Some(t))
       <==> Literal(Lower(t.name))
  {
    if Literal(Lower(t.name)) {
      forall store | UniqueNames(store) && Stored(store, t)
        ensures GetByName(store, t.name) == Some(t)
      {
        FoundByName(store, t, t.name);
      }
    } else {
      Shadowed(t, t.address);
      assert Token(Witness(Lower(t.name)), t.address, t.typ) != t by {
        WitnessDiffers(Lower(t.name));
        LowerIs(t.name);
        WitnessLower(Lower(t.name));
        LowerIs(Witness(Lower(t.name)));
      }
    }
  }

  /** In particular by any older token that differs just where the name has an underscore. */
  lemma UnderscoreShadowed(t: Token, k: nat, older: Token)
    requires '%' !in t.name && '\\' !in t.name && k < |t.name| && t.name[k] == '_'
    requires older.name == t.name[k := 'x']
    ensures UniqueNames(TwoTokens(older, t)) && Stored(TwoTokens(older, t), t)
    ensures GetByName(TwoTokens(older, t), t.name) == Some(older)
  {
    var pattern := Lower(t.name);
    assert pattern[k] == '_' && Lower(older.name)[k] == 'x';
    assert forall i :: 0 <= i < |pattern| ==> pattern[i] == LowerChar(t.name[i]);
    UnderscoreLike(Lower(older.name), pattern);
    OlderFound(older, t);
  }

  // Parsing

  datatype Parsed = Found(token: Token) | InvalidAddress | UnknownToken | AddressMismatch | Malformed

  function TokenFromEvent(store: Store, isValid: nat -> bool, eventType: string): Parsed {
    var ss := Split(eventType, '.');
    if |ss| < 3 then Malformed // no address or name to read
    else
      match Validate(isValid, ss[1])
      case None => InvalidAddress
      case Some(eAddress) =>
        match GetByName(store, ss[2])
        case None => UnknownToken
        case Some(token) =>
          match Validate(isValid, token.address)
          case None => InvalidAddress
          case Some(tAddress) => if eAddress == tAddress then Found(token) else AddressMismatch
  }

  /** A token whose event type can be read back. */
  predicate Printable(t: Token) {
    '.' !in t.name && Literal(Lower(t.name)) && '.' !in t.address && SinglePrefix(t.address)
  }

  /** The address of a token the service added was formatted, so that only its name matters. */
  lemma AddedIsPrintable(t: Token, address: nat)
    requires t.address == Format(address)
    ensures Printable(t) <==> '.' !in t.name && Literal(Lower(t.name))
  {
    FormatShape(address);
  }

  /**
    The deposit events of a stored token are attributed to it, and those of a namesake at any other valid
    address are refused.
   */
  lemma DepositEventRoundTrip(store: Store, isValid: nat -> bool, t: Token, address: string)
    requires UniqueNames(store) && Stored(store, t) && Printable(t) && isValid(ToAddress(t.address))
    requires '.' !in address && isValid(ToAddress(address))
    ensures TokenFromEvent(store, isValid, DepositEventType(t)) == Found(t)
    ensures TokenFromEvent(store, isValid, EventType(address, t.name, EventName(t.typ)))
         == if ToAddress(address) == ToAddress(t.address) then Found(t) else AddressMismatch
  {
    var trimmed := TrimPrefix(t.address, PREFIX);
    TrimmedAddress(t.address);
    TypeIsRead(store, isValid, t, trimmed);
    TypeIsRead(store, isValid, t, address);
  }

  lemma TypeIsRead(store: Store, isValid: nat -> bool, t: Token, address: string)
    requires UniqueNames(store) && Stored(store, t) && Printable(t) && isValid(ToAddress(t.address))
    requires '.' !in address && isValid(ToAddress(address))
    ensures TokenFromEvent(store, isValid, EventType(address, t.name, EventName(t.typ)))
         == if ToAddress(address) == ToAddress(t.address) then Found(t) else AddressMismatch
  {
    SplitsBack(address, t.name, EventName(t.typ));
    FoundByName(store, t, t.name);
    ValidateExactly(isValid, address, t.address);
  }

  // The types the listener asks for

  /** The listener asks for the deposit events of all stored tokens. */
  ghost predicate ListsDeposits(store: Store, types: seq<string>) {
    && (forall t :: Stored(store, t) ==> DepositEventType(t) in types)
    && (forall typ :: typ in types ==> exists t :: Stored(store, t) && DepositEventType(t) == typ)
  }

  /** The tokens the handler finds for these types. */
  function TokensByType(store: Store, isValid: nat -> bool, types: seq<string>): map<string, Token> {
    map typ | typ in types && TokenFromEvent(store, isValid, typ).Found? :: TokenFromEvent(store, isValid, typ).token
  }

  ghost predicate AllPrintable(store: Store, isValid: nat -> bool) {
    forall t :: Stored(store, t) ==> Printable(t) && isValid(ToAddress(t.address))
  }

  /** Every stored token is found by the type of its deposit events. */
  ghost predicate FindsByType(store: Store, tokens: map<string, Token>) {
    forall t :: Stored(store, t) ==> DepositEventType(t) in tokens && tokens[DepositEventType(t)] == t
  }

  /** Every listened type leads to one stored token, the one it was printed from, and every stored token has one. */
  lemma ListenedTypesResolve(store: Store, isValid: nat -> bool, types: seq<string>)
    requires UniqueNames(store) && AllPrintable(store, isValid) && ListsDeposits(store, types)
    ensures var tokens := TokensByType(store, isValid, types);
            && FindsByType(store, tokens)
            && (forall typ :: typ in types <==> typ in tokens)
            && (forall typ :: typ in tokens ==> Stored(store, tokens[typ]) && DepositEventType(tokens[typ]) == typ)
  {
    forall t | Stored(store, t)
      ensures TokenFromEvent(store, isValid, DepositEventType(t)) == Found(t)
    {
      DepositEventRoundTrip(store, isValid, t, t.address);
    }
  }

  predicate Contains(s: string, sub: string) {
    sub <= s || (s != "" && Contains(s[1..], sub))
  }

  lemma {:induction false} ContainsExactly(s: string, sub: string)
    ensures Contains(s, sub) <==> exists i :: 0 <= i <= |s| && sub <= s[i..]
  {
    assert s[0..] == s;
    if s != "" {
      ContainsExactly(s[1..], sub);
      assert forall i :: 0 < i <= |s| ==> s[i..] == s[1..][i - 1..];
      if i :| 0 < i <= |s| && sub <= s[i..] {
        assert sub <= s[1..][i - 1..];
      }
      if i :| 0 <= i <= |s[1..]| && sub <= s[1..][i..] {
        assert s[i + 1..] == s[1..][i..];
      }
    }
  }

  lemma {:induction false} ContainsLater(a: string, b: string, sub: string)
    requires Contains(b, sub)
    ensures Contains(a + b, sub)
  {
    if a == "" {
      assert a + b == b;
    } else {
      assert (a + b)[1..] == a[1..] + b;
      ContainsLater(a[1..], b, sub);
    }
  }

  /** The deposit events of fungible and non-fungible tokens pass the handler's first test. */
  lemma DepositTypeContains(t: Token)
    requires t.typ != NotSpecified
    ensures Contains(DepositEventType(t), "Deposit")
  {
    var name := EventName(t.typ);
    var before := "A." + TrimPrefix(t.address, PREFIX) + "." + t.name + ".";
    assert DepositEventType(t) == before + name;
    if t.typ == FT {
      assert name == "Tokens" + "Deposited" && "Deposit" <= "Deposited";
      ContainsLater("Tokens", "Deposited", "Deposit");
    } else {
      assert name == "Deposit";
    }
    ContainsLater(before, name, "Deposit");
  }
}

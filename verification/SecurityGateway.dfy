/** The gateway every message passes: it masks detected secrets, vaults them, and reveals them again. */
module SecurityGateway {
  import opened Wrappers
  import Lines
  import opened Utf8
  import opened Redaction
  import opened Sanitizing

  /** Shorter values are never literal-redacted. */
  const MIN_REDACT_LEN := 5

  const BLOCKED_NOTICE := "[blocked: sensitive data detected]"

  datatype Block = TextBlock(text: Text) | OtherBlock(tag: string)

  class Message {
    var content: seq<Block>
    constructor (content: seq<Block>) ensures this.content == content { this.content := content; }
  }

  /** The session's audit map from placeholder to the rule that minted it. */
  class Session {
    var placeholders: map<nat, string>
    constructor () ensures placeholders == map[] { placeholders := map[]; }
  }

  predicate Redactable(v: string) { Utf8Len(v) >= MIN_REDACT_LEN }

  /** Five characters are always enough to be redacted, and ASCII needs them. */
  lemma RedactableWhen(values: seq<string>)
    ensures forall v :: v in values && |v| >= 5 ==> Redactable(v)
    ensures forall v :: v in values && Ascii(v) && |v| < 5 ==> !Redactable(v)
  {
    forall v | v in values ensures Utf8Len(v) >= |v| && (Ascii(v) ==> Utf8Len(v) == |v|) { Utf8LenBounds(v); }
  }

  /** What a masked copy owes the text it came from. */
  ghost predicate Conceals(vault: Vault, before: Text, after: Text) {
    && Expand(after, vault) == Expand(before, vault)
    && Placeholders(after) <= Placeholders(before) + vault.Keys
  }

  /** The vault only learns: what it resolved it still resolves, to the same secret. */
  predicate Extends(was: Vault, now: Vault) {
    forall h :: h in was ==> h in now && now[h] == was[h]
  }

  /** The secrets of some first mints are in, and no others. */
  ghost predicate StoredSome(was: set<string>, now: set<string>, mints: seq<Mint>) {
    exists k :: 0 <= k <= |mints| && now == was + MintedSecrets(mints[..k])
  }

  function MintedIds(ms: seq<Mint>): set<nat> { set i | 0 <= i < |ms| :: ms[i].placeholder }

  predicate LastOf(ms: seq<Mint>, i: nat)
    requires i < |ms|
  {
    forall j :: i < j < |ms| ==> ms[j].placeholder != ms[i].placeholder
  }

  /** `now` is `was` with each minted placeholder filed under its rule, the last mint winning. */
  ghost predicate Records(was: map<nat, string>, now: map<nat, string>, ms: seq<Mint>) {
    && now.Keys == was.Keys + MintedIds(ms)
    && (forall h :: h in was && h !in MintedIds(ms) ==> now[h] == was[h])
    && (forall i :: 0 <= i < |ms| && LastOf(ms, i) ==> now[ms[i].placeholder] == ms[i].rule)
  }

  lemma RecordsOneMore(was: map<nat, string>, now: map<nat, string>, ms: seq<Mint>, m: Mint)
    requires Records(was, now, ms)
    ensures Records(was, now[m.placeholder := m.rule], ms + [m])
  {
    var more := ms + [m];
    assert forall i :: 0 <= i < |ms| ==> more[i] == ms[i];
    assert MintedIds(more) == MintedIds(ms) + {m.placeholder} by {
      assert more[|ms|] == m;
      forall h | h in MintedIds(ms) ensures h in MintedIds(more) {
        var i :| 0 <= i < |ms| && ms[i].placeholder == h;
        assert more[i].placeholder == h;
      }
    }
    forall i | 0 <= i < |ms| && LastOf(more, i) ensures LastOf(ms, i) && ms[i].placeholder != m.placeholder {
      assert more[|ms|].placeholder != more[i].placeholder;
      forall j | i < j < |ms| ensures ms[j].placeholder != ms[i].placeholder { assert more[j].placeholder != more[i].placeholder; }
    }
  }

  method RecordMints(was: map<nat, string>, ms: seq<Mint>) returns (now: map<nat, string>)
    ensures Records(was, now, ms)
  {
    now := was;
    for i := 0 to |ms|
      invariant Records(was, now, ms[..i])
    {
      assert ms[..i + 1] == ms[..i] + [ms[i]];
      RecordsOneMore(was, now, ms[..i], ms[i]);
      now := now[ms[i].placeholder := ms[i].rule];
    }
    assert ms[..|ms|] == ms;
  }

  lemma MintedSecretsConcat(x: seq<Mint>, y: seq<Mint>)
    ensures MintedSecrets(x + y) == MintedSecrets(x) + MintedSecrets(y)
  {
    assert forall i :: 0 <= i < |x| ==> (x + y)[i] == x[i];
    forall s | s in MintedSecrets(y) ensures s in MintedSecrets(x + y) {
      var i :| 0 <= i < |y| && y[i].original == s;
      assert (x + y)[|x| + i] == y[i];
    }
  }

  lemma FirstMints(mints: seq<Mint>, i: nat)
    requires i < |mints|
    ensures MintedSecrets(mints[..i + 1]) == MintedSecrets(mints[..i]) + {mints[i].original}
    ensures MintedSecrets(mints[..i]) <= MintedSecrets(mints)
  {
    assert mints[..i + 1] == mints[..i] + [mints[i]];
    MintedSecretsConcat(mints[..i], [mints[i]]);
    assert MintedSecrets([mints[i]]) == {mints[i].original};
    assert mints == mints[..i] + mints[i..];
    MintedSecretsConcat(mints[..i], mints[i..]);
  }

  lemma MintsAreFirsts(r: Rules, ms: seq<Match>)
    ensures MintedSecrets(MintsFor(r, ms)) == Originals(ms)
  {
    assert forall i :: 0 <= i < |ms| ==> MintsFor(r, ms)[i].original == ms[i].original;
  }

  lemma MintsOfText(r: Rules, t: Text, mints: seq<Mint>)
    ensures MintedSecrets(mints + MintsFor(r, Firsts(r.scan(t).matches, {}))) == MintedSecrets(mints) + DetectedIn(r, t)
  {
    var ms := Firsts(r.scan(t).matches, {});
    FirstsCoverAll(r.scan(t).matches, {});
    MintsAreFirsts(r, ms);
    MintedSecretsConcat(mints, MintsFor(r, ms));
    assert MintedSecrets(MintsFor(r, ms)) == DetectedIn(r, t);
  }

  /** Two texts that expand alike still do once the vault has learnt one more secret. */
  lemma GrowVault(x: Text, y: Text, vault: Vault, h: nat, v: string)
    requires Expand(x, vault) == Expand(y, vault) && (h in vault ==> vault[h] == v)
    ensures Expand(x, vault[h := v]) == Expand(y, vault[h := v])
  {
    if h in vault {
      assert vault[h := v] == vault;
    } else {
      RevealOneMore(x, vault, h, v);
      RevealOneMore(y, vault, h, v);
    }
  }

  /** Vaulting and masking one more value keeps what was concealed, and adds that value. */
  lemma RedactOneMore(r: Rules, vault: Vault, h: nat, v: string, text: Text, out: Text, earlier: seq<string>)
    requires Trusted(r) && v != "" && h == r.mint(v) && Conceals(vault, text, out)
    requires h in vault ==> vault[h] == v
    ensures Conceals(vault[h := v], text, Replace(out, Chars(v), [Ph(h)]))
    ensures !Occurs(Replace(out, Chars(v), [Ph(h)]), v)
    ensures forall s :: s in earlier && s != "" && !Occurs(out, s) ==> !Occurs(Replace(out, Chars(v), [Ph(h)]), s)
  {
    GrowVault(text, out, vault, h, v);
    MaskThenExpand(out, v, h, vault[h := v]);
    MaskRemoves(out, v, h);
    MaskPlaceholders(out, v, h);
    forall s | s in earlier && s != "" && !Occurs(out, s) ensures !Occurs(Replace(out, Chars(v), [Ph(h)]), s) {
      if Occurs(Replace(out, Chars(v), [Ph(h)]), s) { MaskAddsNothing(out, v, h, s); }
    }
  }

  lemma {:induction false} AbsentSecretStays(t: Text, s: string, h: nat)
    requires s != "" && !Occurs(t, s)
    ensures Replace(t, Chars(s), [Ph(h)]) == t
  {
    if |t| >= |s| {
      AbsentSecretStays(t[1..], s, h);
      assert t == [t[0]] + t[1..];
    }
  }

  method MaskWithMints(r: Rules, text: Text, ghost ms: seq<Match>, mints: seq<Mint>) returns (out: Text)
    requires Proper(ms) && mints == MintsFor(r, ms)
    ensures out == MaskAll(r.mint, text, ms)
  {
    out := text;
    for i := 0 to |mints|
      invariant MaskAll(r.mint, out, ms[i..]) == MaskAll(r.mint, text, ms)
    {
      assert ms[i..][1..] == ms[i + 1..];
      if Occurs(out, mints[i].original) {
        out := Replace(out, Chars(mints[i].original), [Ph(mints[i].placeholder)]);
      } else {
        AbsentSecretStays(out, mints[i].original, mints[i].placeholder);
      }
    }
  }

  lemma {:induction false} AbsentPlaceholderStays(t: Text, h: nat, sub: Text)
    requires h !in Placeholders(t)
    ensures Replace(t, [Ph(h)], sub) == t
  {
    if t != [] {
      assert t[0].Ph? ==> t[0].id in Placeholders(t);
      assert forall i :: 0 <= i < |t[1..]| ==> t[1..][i] == t[i + 1];
      AbsentPlaceholderStays(t[1..], h, sub);
    }
  }

  /** Substitutes the resolved placeholders in one leaf, in whatever order the map yields them. */
  method SubstituteInText(text: Text, resolved: Vault) returns (out: Text)
    ensures out == Expand(text, resolved)
  {
    out := text;
    var rest := resolved.Keys;
    ghost var done: Vault := map[];
    ExpandLeavesUnknown(text, done);
    while rest != {}
      invariant rest <= resolved.Keys && done == map h | h in resolved && h !in rest :: resolved[h]
      invariant out == Expand(text, done)
      decreases rest
    {
      var h :| h in rest;
      RevealOneMore(text, done, h, resolved[h]);
      if h in Placeholders(out) {
        out := Replace(out, [Ph(h)], Chars(resolved[h]));
      } else {
        AbsentPlaceholderStays(out, h, Chars(resolved[h]));
      }
      done := done[h := resolved[h]];
      rest := rest - {h};
    }
    assert done == resolved;
  }

  method SubstituteInValue(v: Json, resolved: Vault) returns (out: Json)
    ensures out == RevealedValue(v, resolved)
    decreases v
  {
    match v
    case Str(t) =>
      var text := SubstituteInText(t, resolved);
      return Str(text);
    case Arr(items) =>
      var done: seq<Json> := [];
      for i := 0 to |items|
        invariant |done| == i && forall j :: 0 <= j < i ==> done[j] == RevealedValue(items[j], resolved)
      {
        var item := SubstituteInValue(items[i], resolved);
        done := done + [item];
      }
      out := Arr(done);
    case Obj(fs) =>
      var done: seq<(string, Json)> := [];
      for i := 0 to |fs|
        invariant |done| == i && forall j :: 0 <= j < i ==> done[j] == (fs[j].0, RevealedValue(fs[j].1, resolved))
      {
        var value := SubstituteInValue(fs[i].1, resolved);
        done := done + [(fs[i].0, value)];
      }
      out := Obj(done);
    case Atom(_) =>
      return v;
  }

  // ----- message blocks -----

  /** Matches of all text blocks together; one blocked block blocks the message. */
  function ScanBlocks(r: Rules, blocks: seq<Block>): Scan {
    if blocks == [] then Scan([], false)
    else
      var rest := ScanBlocks(r, blocks[1..]);
      if blocks[0].TextBlock? then
        var one := r.scan(blocks[0].text);
        Scan(one.matches + rest.matches, one.blocked || rest.blocked)
      else rest
  }

  lemma {:induction false} ScanBlocksProper(r: Rules, blocks: seq<Block>)
    requires Trusted(r)
    ensures Proper(ScanBlocks(r, blocks).matches)
    ensures forall i :: 0 <= i < |blocks| && blocks[i].TextBlock? ==>
              DetectedIn(r, blocks[i].text) <= Originals(ScanBlocks(r, blocks).matches)
  {
    if blocks != [] {
      ScanBlocksProper(r, blocks[1..]);
      var rest := ScanBlocks(r, blocks[1..]).matches;
      var all := ScanBlocks(r, blocks).matches;
      if blocks[0].TextBlock? {
        var one := r.scan(blocks[0].text).matches;
        assert Proper(one);
        assert forall i :: 0 <= i < |one| ==> all[i] == one[i];
        assert forall i :: 0 <= i < |rest| ==> all[|one| + i] == rest[i];
      }
      forall i | 1 <= i < |blocks| && blocks[i].TextBlock?
        ensures DetectedIn(r, blocks[i].text) <= Originals(all)
      {
        assert blocks[i] == blocks[1..][i - 1];
      }
    }
  }

  /** A message is blocked exactly when some text block's own scan blocks, and matches what any of them matches. */
  lemma {:induction false} ScanBlocksMean(r: Rules, blocks: seq<Block>)
    ensures ScanBlocks(r, blocks).blocked <==>
              exists i :: 0 <= i < |blocks| && blocks[i].TextBlock? && r.scan(blocks[i].text).blocked
    ensures forall m :: m in ScanBlocks(r, blocks).matches <==>
              exists i :: 0 <= i < |blocks| && blocks[i].TextBlock? && m in r.scan(blocks[i].text).matches
  {
    if blocks != [] {
      ScanBlocksMean(r, blocks[1..]);
      assert forall i :: 1 <= i < |blocks| ==> blocks[i] == blocks[1..][i - 1];
      assert forall i :: 0 <= i < |blocks[1..]| ==> blocks[1..][i] == blocks[i + 1];
    }
  }

  function MaskedBlock(r: Rules, b: Block, ms: seq<Match>): Block
    requires Proper(ms)
  {
    if b.TextBlock? then TextBlock(MaskAll(r.mint, b.text, ms)) else b
  }

  /** Block for block: text free of every secret the message's scan found, the rest untouched. */
  ghost predicate BlocksScrubbed(r: Rules, before: seq<Block>, after: seq<Block>) {
    |after| == |before| &&
    forall i :: 0 <= i < |before| ==>
      if before[i].TextBlock? then
        after[i].TextBlock? && forall s :: s in Originals(ScanBlocks(r, before).matches) ==> !Occurs(after[i].text, s)
      else after[i] == before[i]
  }

  /** Scrubbed, and every block reveals to what it revealed to before. */
  ghost predicate BlocksConcealed(r: Rules, vault: Vault, before: seq<Block>, after: seq<Block>) {
    BlocksScrubbed(r, before, after) &&
    forall i :: 0 <= i < |before| && before[i].TextBlock? ==> Conceals(vault, before[i].text, after[i].text)
  }

  lemma NothingToConceal(r: Rules, vault: Vault, blocks: seq<Block>)
    requires ScanBlocks(r, blocks).matches == []
    ensures BlocksConcealed(r, vault, blocks, blocks)
  {
  }

  lemma MaskedBlocksScrubbed(r: Rules, before: seq<Block>, ms: seq<Match>, after: seq<Block>)
    requires Proper(ms) && ms == ScanBlocks(r, before).matches
    requires Proper(Firsts(ms, {})) && |after| == |before|
    requires forall i :: 0 <= i < |before| ==> after[i] == MaskedBlock(r, before[i], Firsts(ms, {}))
    ensures BlocksScrubbed(r, before, after)
  {
    FirstsCoverAll(ms, {});
    forall i, s | 0 <= i < |before| && before[i].TextBlock? && s in Originals(ms) ensures !Occurs(after[i].text, s) {
      MaskAllRemoves(r, before[i].text, Firsts(ms, {}), s);
    }
  }

  lemma MaskedBlocksConceal(r: Rules, vault: Vault, before: seq<Block>, ms: seq<Match>, after: seq<Block>)
    requires Trusted(r) && Proper(ms) && ms == ScanBlocks(r, before).matches && Holds(r, vault, Originals(ms))
    requires Proper(Firsts(ms, {})) && |after| == |before|
    requires forall i :: 0 <= i < |before| ==> after[i] == MaskedBlock(r, before[i], Firsts(ms, {}))
    ensures BlocksConcealed(r, vault, before, after)
  {
    FirstsCoverAll(ms, {});
    MaskedBlocksScrubbed(r, before, ms, after);
    forall i | 0 <= i < |before| && before[i].TextBlock? ensures Conceals(vault, before[i].text, after[i].text) {
      MaskAllExpands(r, before[i].text, Firsts(ms, {}), vault);
      MaskAllPlaceholders(r, before[i].text, Firsts(ms, {}));
    }
  }

  // ----- the gateway -----

  class Gateway {
    const rules: Rules
    const fails: nat -> bool   // vault call number n fails
    var calls: nat
    var vault: Vault
    ghost var secrets: set<string>   // every secret the vault has taken

    /** Each vaulted secret resolves under its own placeholder, and nothing else is vaulted. */
    ghost predicate Valid()
      reads this
    {
      && Trusted(rules)
      && Holds(rules, vault, secrets)
      && (forall h :: h in vault ==> vault[h] in secrets && rules.mint(vault[h]) == h)
    }

    /** No vault call from number `since` up to now failed. */
    ghost predicate Smooth(since: nat)
      reads this`calls
    {
      forall n :: since <= n < calls ==> !fails(n)
    }

    constructor (rules: Rules, fails: nat -> bool)
      requires Trusted(rules)
      ensures Valid() && this.rules == rules && this.fails == fails && secrets == {} && vault == map[]
    {
      this.rules, this.fails := rules, fails;
      calls, vault, secrets := 0, map[], {};
    }

    ghost predicate MintsMatch(mints: seq<Mint>) {
      forall i :: 0 <= i < |mints| ==> mints[i].placeholder == rules.mint(mints[i].original)
    }

    // ----- the vault -----

    method StoreSecret(h: nat, s: string) returns (ok: bool)
      requires Valid() && h == rules.mint(s)
      modifies `calls, `vault, `secrets
      ensures Valid() && ok == !fails(old(calls)) && calls == old(calls) + 1
      ensures secrets == (if ok then old(secrets) + {s} else old(secrets))
      ensures vault == (if ok then old(vault)[h := s] else old(vault)) && Extends(old(vault), vault)
    {
      calls := calls + 1;
      ok := !fails(calls - 1);
      if ok {
        vault := vault[h := s];
        secrets := secrets + {s};
      }
    }

    method GetSecret(h: nat) returns (r: Result<Option<string>>)
      modifies `calls
      ensures r.Success? ==> r.value == if h in vault then Some(vault[h]) else None
      ensures r.Success? == !fails(old(calls)) && calls == old(calls) + 1
    {
      calls := calls + 1;
      if fails(calls - 1) { return Failure; }
      r := Success(if h in vault then Some(vault[h]) else None);
    }

    /** Vaults each mint in turn; the first failing call stops it. */
    method StoreMints(mints: seq<Mint>) returns (ok: bool)
      requires Valid() && forall i :: 0 <= i < |mints| ==> mints[i].placeholder == rules.mint(mints[i].original)
      modifies `calls, `vault, `secrets
      ensures Valid() && Extends(old(vault), vault)
      ensures StoredSome(old(secrets), secrets, mints)
      ensures old(secrets) <= secrets <= old(secrets) + MintedSecrets(mints)
      ensures ok ==> secrets == old(secrets) + MintedSecrets(mints)
      ensures old(calls) <= calls && (Smooth(old(calls)) ==> ok)
    {
      for i := 0 to |mints|
        invariant old(calls) <= calls
        invariant Valid() && Extends(old(vault), vault) && secrets == old(secrets) + MintedSecrets(mints[..i])
      {
        FirstMints(mints, i);
        ok := StoreSecret(mints[i].placeholder, mints[i].original);
        if !ok { return false; }
      }
      assert mints[..|mints|] == mints;
      ok := true;
    }

    // ----- masking -----

    /** Masks every detected secret of one text in place of its first match, collecting the mints. */
    method SanitizeString(text: Text, mints: seq<Mint>) returns (out: Text, mints': seq<Mint>)
      requires Trusted(rules)
      ensures out == Sanitized(rules, text)
      ensures mints' == mints + MintsFor(rules, Firsts(rules.scan(text).matches, {}))
    {
      var ms := rules.scan(text).matches;
      FirstsCoverAll(ms, {});
      out, mints' := text, mints;
      if ms == [] { return; }
      var seen := {};
      for i := 0 to |ms|
        invariant Proper(Firsts(ms[i..], seen))
        invariant MaskAll(rules.mint, out, Firsts(ms[i..], seen)) == Sanitized(rules, text)
        invariant mints' + MintsFor(rules, Firsts(ms[i..], seen)) == mints + MintsFor(rules, Firsts(ms, {}))
      {
        assert ms[i..][1..] == ms[i + 1..];
        if ms[i].original !in seen {
          var rest := Firsts(ms[i + 1..], seen + {ms[i].original});
          assert Firsts(ms[i..], seen) == [ms[i]] + rest && ([ms[i]] + rest)[1..] == rest;
          var h := rules.mint(ms[i].original);
          seen := seen + {ms[i].original};
          out := Replace(out, Chars(ms[i].original), [Ph(h)]);
          mints' := mints' + [Mint(h, ms[i].original, ms[i].rule)];
        }
      }
    }

    /** Walks a JSON tree, masking every string leaf; keys and other leaves stay. */
    method SanitizeValue(v: Json, mints: seq<Mint>) returns (out: Json, mints': seq<Mint>)
      requires Trusted(rules) && MintsMatch(mints)
      ensures out == SanitizedValue(rules, v)
      ensures MintsMatch(mints')
      ensures forall s :: s in MintedSecrets(mints') <==> s in MintedSecrets(mints) || Detected(rules, v, s)
      decreases v
    {
      match v
      case Str(t) =>
        var text, ms := SanitizeString(t, mints);
        MintsOfText(rules, t, mints);
        return Str(text), ms;
      case Arr(items) =>
        var done: seq<Json> := [];
        mints' := mints;
        for i := 0 to |items|
          invariant |done| == i && forall j :: 0 <= j < i ==> done[j] == SanitizedValue(rules, items[j])
          invariant MintsMatch(mints')
          invariant forall s :: s in MintedSecrets(mints') <==>
                      s in MintedSecrets(mints) || exists j :: 0 <= j < i && Detected(rules, items[j], s)
        {
          var item;
          item, mints' := SanitizeValue(items[i], mints');
          done := done + [item];
        }
        out := Arr(done);
      case Obj(fs) =>
        var done: seq<(string, Json)> := [];
        mints' := mints;
        for i := 0 to |fs|
          invariant |done| == i && forall j :: 0 <= j < i ==> done[j] == (fs[j].0, SanitizedValue(rules, fs[j].1))
          invariant MintsMatch(mints')
          invariant forall s :: s in MintedSecrets(mints') <==>
                      s in MintedSecrets(mints) || exists j :: 0 <= j < i && Detected(rules, fs[j].1, s)
        {
          var value;
          value, mints' := SanitizeValue(fs[i].1, mints');
          done := done + [(fs[i].0, value)];
        }
        out := Obj(done);
      case Atom(_) =>
        return v, mints;
    }

    /** Sanitises one text and vaults what it masked. */
    method Sanitize(text: Text) returns (r: Result<Text>)
      requires Valid()
      modifies `calls, `vault, `secrets
      ensures old(calls) <= calls && (Smooth(old(calls)) ==> r.Success?)
      ensures Valid() && old(secrets) <= secrets <= old(secrets) + DetectedIn(rules, text)
      ensures Extends(old(vault), vault)
      ensures r.Success? ==>
                && secrets == old(secrets) + DetectedIn(rules, text)
                && Conceals(vault, text, r.value)
                && forall s :: s in DetectedIn(rules, text) ==> !Occurs(r.value, s)
    {
      var out, mints := SanitizeString(text, []);
      MintsOfText(rules, text, []);
      var ok := StoreMints(mints);
      if !ok { return Failure; }
      SanitizedFaithful(rules, text, vault);
      r := Success(out);
    }

    /** Sanitises a tool's JSON output and vaults what it masked. */
    method SanitizeJson(v: Json) returns (r: Result<Json>)
      requires Valid()
      modifies `calls, `vault, `secrets
      ensures old(calls) <= calls && (Smooth(old(calls)) ==> r.Success?)
      ensures Valid() && old(secrets) <= secrets
      ensures forall s :: s in secrets ==> s in old(secrets) || Detected(rules, v, s)
      ensures Extends(old(vault), vault)
      ensures r.Success? ==>
                && (forall s :: Detected(rules, v, s) ==> s in secrets)
                && Scrubbed(rules, v, r.value)
                && RevealedValue(r.value, vault) == RevealedValue(v, vault)
                && (PlainValue(v) ==> RevealedValue(r.value, vault) == v)
                && PlaceholdersIn(r.value) <= PlaceholdersIn(v) + vault.Keys
    {
      var out, mints := SanitizeValue(v, []);
      var ok := StoreMints(mints);
      if !ok { return Failure; }
      SanitizedValueFaithful(rules, v, vault);
      r := Success(out);
    }

    // ----- redaction of known values -----

    /** Vaults and masks one known value; a too short or absent one is passed over. */
    method RedactValue(v: string, ghost text: Text, out: Text, ghost earlier: seq<string>) returns (ok: bool, out': Text)
      requires Valid() && Conceals(vault, text, out)
      modifies `calls, `vault, `secrets
      ensures old(calls) <= calls && (Smooth(old(calls)) ==> ok)
      ensures Valid() && Extends(old(vault), vault)
      ensures old(secrets) <= secrets <= old(secrets) + (if Redactable(v) then {v} else {})
      ensures !Redactable(v) ==> ok && out' == out && vault == old(vault)
      ensures ok ==>
                && Conceals(vault, text, out') && (Redactable(v) ==> !Occurs(out', v))
                && forall s :: s in earlier && s != "" && !Occurs(out, s) ==> !Occurs(out', s)
    {
      ok, out' := true, out;
      if Redactable(v) && Occurs(out, v) {
        var h := rules.mint(v);
        ghost var before := vault;
        ok := StoreSecret(h, v);
        if ok {
          RedactOneMore(rules, before, h, v, text, out, earlier);
          out' := Replace(out, Chars(v), [Ph(h)]);
        }
      }
    }

    /** The values one after the other, as far as the vault takes them. */
    method RedactEach(text: Text, values: seq<string>) returns (ok: bool, out: Text)
      requires Valid()
      modifies `calls, `vault, `secrets
      ensures old(calls) <= calls && (Smooth(old(calls)) ==> ok)
      ensures Valid() && old(secrets) <= secrets && Extends(old(vault), vault)
      ensures forall s :: s in secrets ==> s in old(secrets) || (s in values && Redactable(s))
      ensures ok ==> Conceals(vault, text, out) && forall v :: v in values && Redactable(v) ==> !Occurs(out, v)
      ensures (forall v :: v in values ==> !Redactable(v)) ==> ok && out == text && vault == old(vault) && secrets == old(secrets)
    {
      ok, out := true, text;
      ghost var none := forall v :: v in values ==> !Redactable(v);
      for i := 0 to |values|
        invariant old(calls) <= calls
        invariant Extends(old(vault), vault)
        invariant ok && Valid() && old(secrets) <= secrets
        invariant forall s :: s in secrets ==> s in old(secrets) || (s in values && Redactable(s))
        invariant Conceals(vault, text, out)
        invariant none ==> out == text && vault == old(vault) && secrets == old(secrets)
        invariant forall s :: s in values[..i] && Redactable(s) ==> !Occurs(out, s)
      {
        assert values[..i + 1] == values[..i] + [values[i]];
        ok, out := RedactValue(values[i], text, out, values[..i]);
        if !ok { return; }
      }
      assert values[..|values|] == values;
    }

    /** Masks known values out of a text. */
    method Redact(text: Text, values: seq<string>) returns (r: Result<Text>)
      requires Valid()
      modifies `calls, `vault, `secrets
      ensures old(calls) <= calls && (Smooth(old(calls)) ==> r.Success?)
      ensures Valid() && old(secrets) <= secrets
      ensures forall s :: s in secrets ==> s in old(secrets) || (s in values && Redactable(s))
      ensures Extends(old(vault), vault)
      ensures r.Success? ==>
                && Conceals(vault, text, r.value)
                && (forall v :: v in values && Redactable(v) ==> !Occurs(r.value, v))
                && (forall v :: v in values && |v| >= 5 ==> !Occurs(r.value, v))
      ensures (forall v :: v in values ==> Ascii(v) && |v| < 5) ==>
                r == Success(text) && vault == old(vault) && secrets == old(secrets)
    {
      RedactableWhen(values);
      var ok, out := RedactEach(text, values);
      r := if ok then Success(out) else Failure;
    }

    // ----- revealing -----

    /** Replaces every placeholder the vault knows; the order they come in does not matter. */
    method RevealText(text: Text) returns (r: Result<Text>)
      modifies `calls
      ensures old(calls) <= calls && (Smooth(old(calls)) ==> r.Success?)
      ensures r.Success? ==> r.value == Expand(text, vault)
    {
      var rest := Placeholders(text);
      var out := text;
      ghost var done: Vault := map[];
      ExpandLeavesUnknown(text, done);
      while rest != {}
        invariant old(calls) <= calls
        invariant rest <= Placeholders(text)
        invariant out == Expand(text, done)
        invariant forall h :: h in done <==> h in Placeholders(text) - rest && h in vault
        invariant forall h :: h in done ==> done[h] == vault[h]
        decreases rest
      {
        var h :| h in rest;
        var got := GetSecret(h);
        if got.Failure? { return Failure; }
        if got.value.Some? {
          RevealOneMore(text, done, h, got.value.value);
          out := Replace(out, [Ph(h)], Chars(got.value.value));
          done := done[h := got.value.value];
        }
        rest := rest - {h};
      }
      ExpandLocal(text, done, vault);
      r := Success(out);
    }

    /** Resolves every placeholder of a tree once, then substitutes; a failing lookup changes nothing. */
    method RevealValue(v: Json) returns (r: Result<Json>)
      modifies `calls
      ensures old(calls) <= calls && (Smooth(old(calls)) ==> r.Success?)
      ensures calls <= old(calls) + |PlaceholdersIn(v)| && (r.Success? ==> calls == old(calls) + |PlaceholdersIn(v)|)
      ensures r.Success? ==> r.value == RevealedValue(v, vault)
    {
      var rest := PlaceholdersIn(v);
      var resolved: Vault := map[];
      while rest != {}
        invariant old(calls) <= calls
        invariant calls + |rest| == old(calls) + |PlaceholdersIn(v)|
        invariant rest <= PlaceholdersIn(v)
        invariant forall h :: h in resolved <==> h in PlaceholdersIn(v) - rest && h in vault
        invariant forall h :: h in resolved ==> resolved[h] == vault[h]
        decreases rest
      {
        var h :| h in rest;
        var got := GetSecret(h);
        if got.Failure? { return Failure; }
        if got.value.Some? { resolved := resolved[h := got.value.value]; }
        rest := rest - {h};
      }
      RevealLocal(v, resolved, vault);
      var out := SubstituteInValue(v, resolved);
      r := Success(out);
    }

    // ----- messages -----

    /** One mint for the first match of every original. */
    method MintFirsts(ms: seq<Match>) returns (mints: seq<Mint>)
      ensures mints == MintsFor(rules, Firsts(ms, {}))
    {
      mints := [];
      var seen := {};
      for i := 0 to |ms|
        invariant mints + MintsFor(rules, Firsts(ms[i..], seen)) == MintsFor(rules, Firsts(ms, {}))
      {
        assert ms[i..][1..] == ms[i + 1..];
        if ms[i].original !in seen {
          ghost var rest := Firsts(ms[i + 1..], seen + {ms[i].original});
          assert Firsts(ms[i..], seen) == [ms[i]] + rest;
          assert MintsFor(rules, [ms[i]] + rest) == [Minted(rules, ms[i])] + MintsFor(rules, rest);
          Lines.Assoc(mints, [Minted(rules, ms[i])], MintsFor(rules, rest));
          mints := mints + [Mint(rules.mint(ms[i].original), ms[i].original, ms[i].rule)];
          seen := seen + {ms[i].original};
        }
      }
    }

    /** Applies one batch of matches to every text block, whichever block they came from. */
    method ApplyMatchesToBlocks(blocks: seq<Block>, ms: seq<Match>) returns (out: seq<Block>, mints: seq<Mint>)
      requires Trusted(rules) && Proper(ms)
      ensures mints == MintsFor(rules, Firsts(ms, {}))
      ensures Proper(Firsts(ms, {})) && |out| == |blocks|
      ensures forall i :: 0 <= i < |blocks| ==> out[i] == MaskedBlock(rules, blocks[i], Firsts(ms, {}))
    {
      FirstsCoverAll(ms, {});
      mints := MintFirsts(ms);
      out := [];
      for i := 0 to |blocks|
        invariant |out| == i
        invariant forall j :: 0 <= j < i ==> out[j] == MaskedBlock(rules, blocks[j], Firsts(ms, {}))
      {
        match blocks[i]
        case TextBlock(text) =>
          var masked := MaskWithMints(rules, text, Firsts(ms, {}), mints);
          out := out + [TextBlock(masked)];
        case OtherBlock(_) =>
          out := out + [blocks[i]];
      }
    }

    /** Records the mints in the session, then vaults them. */
    method PersistMints(session: Session, mints: seq<Mint>) returns (ok: bool)
      requires Valid() && MintsMatch(mints)
      modifies `calls, `vault, `secrets, session
      ensures Valid() && old(secrets) <= secrets <= old(secrets) + MintedSecrets(mints)
      ensures Extends(old(vault), vault)
      ensures StoredSome(old(secrets), secrets, mints)
      ensures ok ==> secrets == old(secrets) + MintedSecrets(mints)
      ensures old(calls) <= calls && (Smooth(old(calls)) ==> ok)
      ensures Records(old(session.placeholders), session.placeholders, mints)
    {
      if mints == [] {
        assert secrets == secrets + MintedSecrets(mints[..0]);
        return true;
      }
      var existing := RecordMints(session.placeholders, mints);
      session.placeholders := existing;
      ok := StoreMints(mints);
    }

    /** Scans a message; a blocked one is replaced wholesale, any other is masked and vaulted. */
    method SanitizeInput(msg: Message, session: Session) returns (ok: bool)
      requires Valid()
      modifies `calls, `vault, `secrets, msg, session
      ensures Valid() && old(secrets) <= secrets
      ensures ScanBlocks(rules, old(msg.content)).blocked ==>
                && !ok && msg.content == [TextBlock(Chars(BLOCKED_NOTICE))]
                && secrets == old(secrets) && session.placeholders == old(session.placeholders)
      ensures !ScanBlocks(rules, old(msg.content)).blocked ==>
                && BlocksScrubbed(rules, old(msg.content), msg.content)
                && Records(old(session.placeholders), session.placeholders,
                           MintsFor(rules, Firsts(ScanBlocks(rules, old(msg.content)).matches, {})))
      ensures old(calls) <= calls && (Smooth(old(calls)) && !ScanBlocks(rules, old(msg.content)).blocked ==> ok)
      ensures Extends(old(vault), vault)
      ensures ok ==> BlocksConcealed(rules, vault, old(msg.content), msg.content)
      ensures ok ==> secrets == old(secrets) + Originals(ScanBlocks(rules, old(msg.content)).matches)
    {
      var scan := ScanBlocks(rules, msg.content);
      if scan.blocked {
        msg.content := [TextBlock(Chars(BLOCKED_NOTICE))];
        return false;
      }
      ScanBlocksProper(rules, msg.content);
      ghost var before := msg.content;
      if scan.matches == [] {
        assert Originals(scan.matches) == {};
        NothingToConceal(rules, vault, before);
        assert MintsFor(rules, Firsts([], {})) == [];
        return true;
      }
      var blocks, mints := ApplyMatchesToBlocks(msg.content, scan.matches);
      msg.content := blocks;
      FirstsCoverAll(scan.matches, {});
      MintsAreFirsts(rules, Firsts(scan.matches, {}));
      MaskedBlocksScrubbed(rules, before, scan.matches, blocks);
      ok := PersistMints(session, mints);
      if ok { MaskedBlocksConceal(rules, vault, before, scan.matches, blocks); }
    }
  }

  // ----- laws over runs -----

  /** What a vault resolves to plain text, a larger one does not change. */
  lemma {:induction false} ExpandTwice(t: Text, was: Vault, now: Vault)
    requires Extends(was, now)
    ensures Expand(Expand(t, was), now) == Expand(t, now)
  {
    if t != [] {
      ExpandTwice(t[1..], was, now);
      var first := if t[0].Ph? && t[0].id in was then Chars(was[t[0].id]) else [t[0]];
      ExpandConcat(first, Expand(t[1..], was), now);
      if t[0].Ph? && t[0].id in was {
        ExpandLeavesUnknown(first, now);
      } else {
        assert first[1..] == [];
      }
    }
  }

  /** Each vault of a run extends the one before. */
  predicate Grows(run: seq<Vault>) { forall i :: 0 <= i < |run| - 1 ==> Extends(run[i], run[i + 1]) }

  lemma {:induction false} GrowsThroughout(run: seq<Vault>, n: nat)
    requires Grows(run) && n < |run|
    ensures Extends(run[0], run[n])
  {
    if n > 0 {
      GrowsThroughout(run, n - 1);
      assert Extends(run[n - 1], run[n - 1 + 1]);
    }
  }

  /**
   * A text masked in one call reveals to what it was after any number of later calls, of this
   * session or another: to itself when it held no placeholder.
   */
  lemma {:induction false} MaskedStaysRevealable(run: seq<Vault>, n: nat, before: Text, after: Text)
    requires Grows(run) && n < |run| && Conceals(run[0], before, after)
    ensures Expand(after, run[n]) == Expand(before, run[n])
    ensures Plain(before) ==> Expand(after, run[n]) == before
  {
    GrowsThroughout(run, n);
    ExpandTwice(after, run[0], run[n]);
    ExpandTwice(before, run[0], run[n]);
    if Plain(before) { ExpandLeavesUnknown(before, run[n]); }
  }

  lemma {:induction false} RevealTwice(v: Json, was: Vault, now: Vault)
    requires Extends(was, now)
    ensures RevealedValue(RevealedValue(v, was), now) == RevealedValue(v, now)
  {
    match v
    case Str(t) => ExpandTwice(t, was, now);
    case Arr(items) =>
      forall i | 0 <= i < |items| ensures RevealedValue(RevealedValue(items[i], was), now) == RevealedValue(items[i], now) {
        RevealTwice(items[i], was, now);
      }
    case Obj(fs) =>
      forall i | 0 <= i < |fs| ensures RevealedValue(RevealedValue(fs[i].1, was), now) == RevealedValue(fs[i].1, now) {
        RevealTwice(fs[i].1, was, now);
      }
    case Atom(_) =>
  }

  lemma {:induction false} PlainRevealsToItself(v: Json, vault: Vault)
    requires PlainValue(v)
    ensures RevealedValue(v, vault) == v
  {
    match v
    case Str(t) => ExpandLeavesUnknown(t, vault);
    case Arr(items) =>
      forall i | 0 <= i < |items| ensures RevealedValue(items[i], vault) == items[i] { PlainRevealsToItself(items[i], vault); }
      assert RevealedValue(v, vault).items == items;
    case Obj(fs) =>
      forall i | 0 <= i < |fs| ensures RevealedValue(fs[i].1, vault) == fs[i].1 { PlainRevealsToItself(fs[i].1, vault); }
      assert RevealedValue(v, vault).fields == fs;
    case Atom(_) =>
  }

  /** The same for JSON trees. */
  lemma MaskedValueStaysRevealable(run: seq<Vault>, n: nat, before: Json, after: Json)
    requires Grows(run) && n < |run| && RevealedValue(after, run[0]) == RevealedValue(before, run[0])
    ensures RevealedValue(after, run[n]) == RevealedValue(before, run[n])
    ensures PlainValue(before) ==> RevealedValue(after, run[n]) == before
  {
    GrowsThroughout(run, n);
    RevealTwice(after, run[0], run[n]);
    RevealTwice(before, run[0], run[n]);
    if PlainValue(before) { PlainRevealsToItself(before, run[n]); }
  }

  /** The vault's entries number exactly the distinct secrets it has taken. */
  lemma {:induction false} OneEntryPerSecret(r: Rules, vault: Vault, secrets: set<string>)
    requires Trusted(r) && Holds(r, vault, secrets)
    requires forall h :: h in vault ==> vault[h] in secrets && r.mint(vault[h]) == h
    ensures |vault| == |secrets|
    decreases |secrets|
  {
    if secrets == {} {
      assert vault == map[];
    } else {
      var s :| s in secrets;
      var h := r.mint(s);
      var smaller := vault - {h};
      OneEntryPerSecret(r, smaller, secrets - {s});
      assert vault.Keys == smaller.Keys + {h};
      assert |vault.Keys| == |smaller.Keys| + 1;
      assert |vault| == |vault.Keys| && |smaller| == |smaller.Keys|;
    }
  }
}

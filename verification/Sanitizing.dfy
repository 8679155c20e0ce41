/** What sanitising and revealing compute on texts and JSON trees, and the laws that tie them together. */
module Sanitizing {
  import opened Redaction

  datatype Match = Match(original: string, rule: string)

  datatype Scan = Scan(matches: seq<Match>, blocked: bool)

  datatype Mint = Mint(placeholder: nat, original: string, rule: string)

  /** The leak detector and the keyed minter, both deterministic and otherwise unknown. */
  datatype Rules = Rules(scan: Text -> Scan, mint: string -> nat)

  predicate Proper(ms: seq<Match>) { forall i :: 0 <= i < |ms| ==> ms[i].original != "" }

  /** What is assumed of them: matches are non-empty and distinct secrets get distinct placeholders. */
  ghost predicate Trusted(r: Rules) {
    && (forall t :: Proper(r.scan(t).matches))
    && (forall s, s' :: r.mint(s) == r.mint(s') ==> s == s')
  }

  // ----- texts -----

  /** The first match of every original that is not in `seen`. */
  function Firsts(ms: seq<Match>, seen: set<string>): seq<Match> {
    if ms == [] then []
    else if ms[0].original in seen then Firsts(ms[1..], seen)
    else [ms[0]] + Firsts(ms[1..], seen + {ms[0].original})
  }

  function Minted(r: Rules, m: Match): Mint { Mint(r.mint(m.original), m.original, m.rule) }

  function MintsFor(r: Rules, ms: seq<Match>): seq<Mint> {
    seq(|ms|, i requires 0 <= i < |ms| => Minted(r, ms[i]))
  }

  ghost function Originals(ms: seq<Match>): set<string> { set i | 0 <= i < |ms| :: ms[i].original }

  ghost function MintedSecrets(ms: seq<Mint>): set<string> { set i | 0 <= i < |ms| :: ms[i].original }

  /** Every secret masked under its placeholder, one after the other. */
  function MaskAll(mint: string -> nat, t: Text, ms: seq<Match>): Text
    requires Proper(ms)
    decreases |ms|
  {
    if ms == [] then t
    else MaskAll(mint, Replace(t, Chars(ms[0].original), [Ph(mint(ms[0].original))]), ms[1..])
  }

  lemma OriginalsCons(ms: seq<Match>)
    requires ms != []
    ensures Originals(ms) == {ms[0].original} + Originals(ms[1..])
  {
    assert forall i :: 1 <= i < |ms| ==> ms[i] == ms[1..][i - 1];
    assert forall i :: 0 <= i < |ms[1..]| ==> ms[1..][i] == ms[i + 1];
  }

  lemma {:induction false} FirstsCoverAll(ms: seq<Match>, seen: set<string>)
    ensures Originals(Firsts(ms, seen)) == Originals(ms) - seen
    ensures Proper(ms) ==> Proper(Firsts(ms, seen))
    ensures forall i, j :: 0 <= i < j < |Firsts(ms, seen)| ==> Firsts(ms, seen)[i].original != Firsts(ms, seen)[j].original
  {
    if ms != [] {
      OriginalsCons(ms);
      if ms[0].original in seen {
        FirstsCoverAll(ms[1..], seen);
      } else {
        FirstsCoverAll(ms[1..], seen + {ms[0].original});
        var rest := Firsts(ms[1..], seen + {ms[0].original});
        OriginalsCons([ms[0]] + rest);
        assert ([ms[0]] + rest)[1..] == rest;
        assert forall j :: 0 <= j < |rest| ==> rest[j].original in Originals(rest);
      }
    }
  }

  /** First matches come in order: those of a longer list are those of its front, then those new in the rest. */
  lemma {:induction false} FirstsJoin(x: seq<Match>, y: seq<Match>, seen: set<string>)
    ensures Firsts(x + y, seen) == Firsts(x, seen) + Firsts(y, seen + Originals(x))
    decreases |x|
  {
    if x == [] {
      assert x + y == y && Originals(x) == {} && seen + {} == seen;
    } else {
      assert (x + y)[0] == x[0] && (x + y)[1..] == x[1..] + y;
      OriginalsCons(x);
      var now := if x[0].original in seen then seen else seen + {x[0].original};
      FirstsJoin(x[1..], y, now);
      assert now + Originals(x[1..]) == seen + Originals(x);
    }
  }

  lemma FirstOfOne(m: Match, seen: set<string>)
    ensures Firsts([m], seen) == if m.original in seen then [] else [m]
  {
    assert [m][1..] == [];
  }

  ghost function Sanitized(r: Rules, t: Text): Text
    requires Trusted(r)
  {
    FirstsCoverAll(r.scan(t).matches, {});
    MaskAll(r.mint, t, Firsts(r.scan(t).matches, {}))
  }

  ghost function DetectedIn(r: Rules, t: Text): set<string> { Originals(r.scan(t).matches) }

  /** The vault resolves each of these secrets' placeholders to the secret. */
  ghost predicate Holds(r: Rules, vault: Vault, secrets: set<string>) {
    forall s :: s in secrets ==> r.mint(s) in vault && vault[r.mint(s)] == s
  }

  lemma {:induction false} MaskAllExpands(r: Rules, t: Text, ms: seq<Match>, vault: Vault)
    requires Proper(ms) && Holds(r, vault, Originals(ms))
    ensures Expand(MaskAll(r.mint, t, ms), vault) == Expand(t, vault)
    decreases |ms|
  {
    if ms != [] {
      OriginalsCons(ms);
      var s := ms[0].original;
      MaskThenExpand(t, s, r.mint(s), vault);
      MaskAllExpands(r, Replace(t, Chars(s), [Ph(r.mint(s))]), ms[1..], vault);
    }
  }

  lemma {:induction false} MaskAllRemoves(r: Rules, t: Text, ms: seq<Match>, s: string)
    requires Proper(ms) && s != "" && (s in Originals(ms) || !Occurs(t, s))
    ensures !Occurs(MaskAll(r.mint, t, ms), s)
    decreases |ms|
  {
    if ms != [] {
      OriginalsCons(ms);
      var p := ms[0].original;
      var t' := Replace(t, Chars(p), [Ph(r.mint(p))]);
      if s == p { MaskRemoves(t, s, r.mint(p)); }
      if Occurs(t', s) { MaskAddsNothing(t, p, r.mint(p), s); }
      MaskAllRemoves(r, t', ms[1..], s);
    }
  }

  lemma {:induction false} MaskAllPlaceholders(r: Rules, t: Text, ms: seq<Match>)
    requires Proper(ms)
    ensures Placeholders(MaskAll(r.mint, t, ms)) <= Placeholders(t) + (set s | s in Originals(ms) :: r.mint(s))
    decreases |ms|
  {
    if ms != [] {
      OriginalsCons(ms);
      var s := ms[0].original;
      MaskPlaceholders(t, s, r.mint(s));
      MaskAllPlaceholders(r, Replace(t, Chars(s), [Ph(r.mint(s))]), ms[1..]);
      assert s in Originals(ms);
    }
  }

  /**
   * Sanitise then reveal: expanding gives back the original's expansion (the original
   * itself when it had no placeholder), no detected secret is left, also when one secret is
   * part of another, and every new placeholder is one the vault resolves.
   */
  lemma SanitizedFaithful(r: Rules, t: Text, vault: Vault)
    requires Trusted(r) && Holds(r, vault, DetectedIn(r, t))
    ensures Expand(Sanitized(r, t), vault) == Expand(t, vault)
    ensures Plain(t) ==> Expand(Sanitized(r, t), vault) == t
    ensures forall s :: s in DetectedIn(r, t) ==> !Occurs(Sanitized(r, t), s)
    ensures Placeholders(Sanitized(r, t)) <= Placeholders(t) + vault.Keys
  {
    var ms := Firsts(r.scan(t).matches, {});
    FirstsCoverAll(r.scan(t).matches, {});
    MaskAllExpands(r, t, ms, vault);
    if Plain(t) { ExpandLeavesUnknown(t, vault); }
    forall s | s in DetectedIn(r, t) ensures !Occurs(Sanitized(r, t), s) {
      MaskAllRemoves(r, t, ms, s);
    }
    MaskAllPlaceholders(r, t, ms);
  }

  // ----- JSON trees -----

  datatype Json = Str(text: Text) | Arr(items: seq<Json>) | Obj(fields: seq<(string, Json)>) | Atom(literal: string)

  ghost function SanitizedValue(r: Rules, v: Json): Json
    requires Trusted(r)
  {
    match v
    case Str(t) => Str(Sanitized(r, t))
    case Arr(items) => Arr(seq(|items|, i requires 0 <= i < |items| => SanitizedValue(r, items[i])))
    case Obj(fs) => Obj(seq(|fs|, i requires 0 <= i < |fs| => (fs[i].0, SanitizedValue(r, fs[i].1))))
    case Atom(_) => v
  }

  function RevealedValue(v: Json, vault: Vault): Json {
    match v
    case Str(t) => Str(Expand(t, vault))
    case Arr(items) => Arr(seq(|items|, i requires 0 <= i < |items| => RevealedValue(items[i], vault)))
    case Obj(fs) => Obj(seq(|fs|, i requires 0 <= i < |fs| => (fs[i].0, RevealedValue(fs[i].1, vault))))
    case Atom(_) => v
  }

  /** Same tree, same keys, same non-string leaves. */
  predicate SameShape(v: Json, w: Json) {
    match v
    case Str(_) => w.Str?
    case Arr(items) => w.Arr? && |w.items| == |items| && forall i :: 0 <= i < |items| ==> SameShape(items[i], w.items[i])
    case Obj(fs) => w.Obj? && |w.fields| == |fs|
                    && forall i :: 0 <= i < |fs| ==> fs[i].0 == w.fields[i].0 && SameShape(fs[i].1, w.fields[i].1)
    case Atom(_) => w == v
  }

  /** The tree with every string emptied. */
  function Emptied(v: Json): Json {
    match v
    case Str(_) => Str([])
    case Arr(items) => Arr(seq(|items|, i requires 0 <= i < |items| => Emptied(items[i])))
    case Obj(fs) => Obj(seq(|fs|, i requires 0 <= i < |fs| => (fs[i].0, Emptied(fs[i].1))))
    case Atom(_) => v
  }

  /** Two trees have the same shape exactly when they are the same once their strings are emptied. */
  lemma {:induction false} SameShapeIff(v: Json, w: Json)
    ensures SameShape(v, w) <==> Emptied(v) == Emptied(w)
  {
    match v
    case Str(_) =>
    case Atom(_) =>
    case Arr(items) =>
      if w.Arr? && |w.items| == |items| {
        forall i | 0 <= i < |items| ensures SameShape(items[i], w.items[i]) <==> Emptied(v).items[i] == Emptied(w).items[i] {
          SameShapeIff(items[i], w.items[i]);
        }
      } else if w.Arr? {
        assert |Emptied(v).items| != |Emptied(w).items|;
      }
    case Obj(fs) =>
      if w.Obj? && |w.fields| == |fs| {
        forall i | 0 <= i < |fs|
          ensures fs[i].0 == w.fields[i].0 && SameShape(fs[i].1, w.fields[i].1) <==> Emptied(v).fields[i] == Emptied(w).fields[i]
        {
          SameShapeIff(fs[i].1, w.fields[i].1);
        }
      } else if w.Obj? {
        assert |Emptied(v).fields| != |Emptied(w).fields|;
      }
  }

  predicate PlainValue(v: Json) {
    match v
    case Str(t) => Plain(t)
    case Arr(items) => forall i :: 0 <= i < |items| ==> PlainValue(items[i])
    case Obj(fs) => forall i :: 0 <= i < |fs| ==> PlainValue(fs[i].1)
    case Atom(_) => true
  }

  /** `s` is detected in some string leaf of `v`. */
  ghost predicate Detected(r: Rules, v: Json, s: string) {
    match v
    case Str(t) => s in DetectedIn(r, t)
    case Arr(items) => exists i :: 0 <= i < |items| && Detected(r, items[i], s)
    case Obj(fs) => exists i :: 0 <= i < |fs| && Detected(r, fs[i].1, s)
    case Atom(_) => false
  }

  function PlaceholdersIn(v: Json): set<nat> {
    match v
    case Str(t) => Placeholders(t)
    case Arr(items) => set i, h | 0 <= i < |items| && h in PlaceholdersIn(items[i]) :: h
    case Obj(fs) => set i, h | 0 <= i < |fs| && h in PlaceholdersIn(fs[i].1) :: h
    case Atom(_) => {}
  }

  /** No string leaf of `w` holds a secret detected in the leaf of `v` it came from. */
  ghost predicate Scrubbed(r: Rules, v: Json, w: Json) {
    SameShape(v, w) &&
    match v
    case Str(t) => forall s :: s in DetectedIn(r, t) ==> !Occurs(w.text, s)
    case Arr(items) => forall i :: 0 <= i < |items| ==> Scrubbed(r, items[i], w.items[i])
    case Obj(fs) => forall i :: 0 <= i < |fs| ==> Scrubbed(r, fs[i].1, w.fields[i].1)
    case Atom(_) => true
  }

  ghost predicate HoldsValue(r: Rules, vault: Vault, v: Json) {
    forall s :: Detected(r, v, s) ==> r.mint(s) in vault && vault[r.mint(s)] == s
  }

  /** The tree law: sanitise then reveal is reveal, and the identity on a placeholder-free tree. */
  lemma {:induction false} SanitizedValueFaithful(r: Rules, v: Json, vault: Vault)
    requires Trusted(r) && HoldsValue(r, vault, v)
    ensures RevealedValue(SanitizedValue(r, v), vault) == RevealedValue(v, vault)
    ensures PlainValue(v) ==> RevealedValue(SanitizedValue(r, v), vault) == v
    ensures Scrubbed(r, v, SanitizedValue(r, v))
    ensures PlaceholdersIn(SanitizedValue(r, v)) <= PlaceholdersIn(v) + vault.Keys
  {
    match v
    case Str(t) =>
      assert forall s :: s in DetectedIn(r, t) ==> Detected(r, v, s);
      SanitizedFaithful(r, t, vault);
    case Arr(items) =>
      forall i | 0 <= i < |items|
        ensures RevealedValue(SanitizedValue(r, items[i]), vault) == RevealedValue(items[i], vault)
        ensures PlainValue(items[i]) ==> RevealedValue(items[i], vault) == items[i]
        ensures Scrubbed(r, items[i], SanitizedValue(r, items[i]))
        ensures PlaceholdersIn(SanitizedValue(r, items[i])) <= PlaceholdersIn(items[i]) + vault.Keys
      {
        assert forall s :: Detected(r, items[i], s) ==> Detected(r, v, s);
        SanitizedValueFaithful(r, items[i], vault);
      }
      if PlainValue(v) { assert RevealedValue(v, vault).items == items; }
    case Obj(fs) =>
      forall i | 0 <= i < |fs|
        ensures RevealedValue(SanitizedValue(r, fs[i].1), vault) == RevealedValue(fs[i].1, vault)
        ensures PlainValue(fs[i].1) ==> RevealedValue(fs[i].1, vault) == fs[i].1
        ensures Scrubbed(r, fs[i].1, SanitizedValue(r, fs[i].1))
        ensures PlaceholdersIn(SanitizedValue(r, fs[i].1)) <= PlaceholdersIn(fs[i].1) + vault.Keys
      {
        assert forall s :: Detected(r, fs[i].1, s) ==> Detected(r, v, s);
        SanitizedValueFaithful(r, fs[i].1, vault);
      }
      if PlainValue(v) { assert RevealedValue(v, vault).fields == fs; }
    case Atom(_) =>
  }

  /** Revealing keeps the tree: keys and non-string leaves included. */
  lemma {:induction false} RevealKeepsShape(v: Json, vault: Vault)
    ensures SameShape(v, RevealedValue(v, vault))
  {
    match v
    case Arr(items) => forall i | 0 <= i < |items| { RevealKeepsShape(items[i], vault); }
    case Obj(fs) => forall i | 0 <= i < |fs| { RevealKeepsShape(fs[i].1, vault); }
    case _ =>
  }

  /** Only the entries for placeholders found in the tree matter to revealing it. */
  lemma {:induction false} RevealLocal(v: Json, x: Vault, y: Vault)
    requires forall h :: h in PlaceholdersIn(v) ==> (h in x <==> h in y) && (h in x ==> x[h] == y[h])
    ensures RevealedValue(v, x) == RevealedValue(v, y)
  {
    match v
    case Str(t) => ExpandLocal(t, x, y);
    case Arr(items) => forall i | 0 <= i < |items| ensures RevealedValue(items[i], x) == RevealedValue(items[i], y) {
      RevealLocal(items[i], x, y);
    }
    case Obj(fs) => forall i | 0 <= i < |fs| ensures RevealedValue(fs[i].1, x) == RevealedValue(fs[i].1, y) {
      RevealLocal(fs[i].1, x, y);
    }
    case Atom(_) =>
  }
}

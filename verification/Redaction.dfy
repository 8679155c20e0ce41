/** Secrets, placeholders and the text algebra that sanitising and revealing rest on. */
module Redaction {
  import opened Lines

  /** A placeholder is one token: its spelling neither contains nor overlaps a secret. */
  datatype Token = Ch(c: char) | Ph(id: nat)

  type Text = seq<Token>

  type Vault = map<nat, string>

  function Chars(s: string): (t: Text)
    ensures |t| == |s| && forall i :: 0 <= i < |s| ==> t[i] == Ch(s[i])
  {
    seq(|s|, i requires 0 <= i < |s| => Ch(s[i]))
  }

  /** `str::replace`: leftmost, non-overlapping occurrences. */
  function Replace(t: Text, pat: Text, sub: Text): Text
    requires |pat| > 0
  {
    if |t| < |pat| then t
    else if pat <= t then sub + Replace(t[|pat|..], pat, sub)
    else [t[0]] + Replace(t[1..], pat, sub)
  }

  predicate Occurs(t: Text, s: string) {
    Chars(s) <= t || (|t| > 0 && Occurs(t[1..], s))
  }

  lemma {:induction false} OccursMeans(t: Text, s: string)
    ensures Occurs(t, s) <==> exists a, b :: t == a + Chars(s) + b
  {
    if Chars(s) <= t {
      assert t == [] + Chars(s) + t[|s|..];
    } else if t != [] {
      OccursMeans(t[1..], s);
      forall a, b | t == a + Chars(s) + b ensures Occurs(t, s) {
        assert a == [] ==> Chars(s) <= t;
        assert t[1..] == a[1..] + Chars(s) + b;
      }
      if Occurs(t[1..], s) {
        var a, b :| t[1..] == a + Chars(s) + b;
        assert t == ([t[0]] + a) + Chars(s) + b;
      }
    }
  }

  function Placeholders(t: Text): set<nat> {
    set i | 0 <= i < |t| && t[i].Ph? :: t[i].id
  }

  predicate Plain(t: Text) { forall i :: 0 <= i < |t| ==> t[i].Ch? }

  /** All known placeholders replaced at once by what they stand for. */
  function Expand(t: Text, vault: Vault): Text {
    if t == [] then []
    else (if t[0].Ph? && t[0].id in vault then Chars(vault[t[0].id]) else [t[0]]) + Expand(t[1..], vault)
  }

  // ----- revealing -----

  lemma {:induction false} ExpandConcat(x: Text, y: Text, vault: Vault)
    ensures Expand(x + y, vault) == Expand(x, vault) + Expand(y, vault)
  {
    if x == [] {
      assert x + y == y;
    } else {
      ExpandConcat(x[1..], y, vault);
      assert (x + y)[0] == x[0] && (x + y)[1..] == x[1..] + y;
      Assoc(if x[0].Ph? && x[0].id in vault then Chars(vault[x[0].id]) else [x[0]], Expand(x[1..], vault), Expand(y, vault));
    }
  }

  lemma {:induction false} ExpandLeavesUnknown(t: Text, vault: Vault)
    requires Placeholders(t) !! vault.Keys
    ensures Expand(t, vault) == t
  {
    if t != [] {
      assert t[0].Ph? ==> t[0].id in Placeholders(t);
      assert forall i :: 0 <= i < |t[1..]| ==> t[1..][i] == t[i + 1];
      ExpandLeavesUnknown(t[1..], vault);
    }
  }

  /** Only the entries for placeholders present in the text matter. */
  lemma {:induction false} ExpandLocal(t: Text, v: Vault, w: Vault)
    requires forall h :: h in Placeholders(t) ==> (h in v <==> h in w) && (h in v ==> v[h] == w[h])
    ensures Expand(t, v) == Expand(t, w)
  {
    if t != [] {
      assert t[0].Ph? ==> t[0].id in Placeholders(t);
      assert forall i :: 0 <= i < |t[1..]| ==> t[1..][i] == t[i + 1];
      ExpandLocal(t[1..], v, w);
    }
  }

  lemma {:induction false} ReplaceSkipsChars(s: string, t: Text, h: nat, sub: Text)
    ensures Replace(Chars(s) + t, [Ph(h)], sub) == Chars(s) + Replace(t, [Ph(h)], sub)
  {
    if s == "" {
      assert Chars(s) + t == t;
      assert Chars(s) + Replace(t, [Ph(h)], sub) == Replace(t, [Ph(h)], sub);
    } else {
      ReplaceSkipsChars(s[1..], t, h, sub);
      assert Chars(s) == [Ch(s[0])] + Chars(s[1..]);
      var u := Chars(s) + t;
      assert u[0] == Ch(s[0]) && u[1..] == Chars(s[1..]) + t;
      assert Replace(u, [Ph(h)], sub) == [u[0]] + Replace(u[1..], [Ph(h)], sub);
    }
  }

  /** One more sequential substitution is one more entry of the simultaneous one. */
  lemma {:induction false} RevealOneMore(t: Text, done: Vault, h: nat, s: string)
    requires h !in done
    ensures Replace(Expand(t, done), [Ph(h)], Chars(s)) == Expand(t, done[h := s])
  {
    if t != [] {
      RevealOneMore(t[1..], done, h, s);
      var rest := Expand(t[1..], done);
      if t[0].Ph? && t[0].id in done {
        ReplaceSkipsChars(done[t[0].id], rest, h, Chars(s));
      } else if t[0] == Ph(h) {
        assert ([t[0]] + rest)[1..] == rest;
      } else {
        assert ([t[0]] + rest)[1..] == rest;
        assert ([t[0]] + rest)[0] != Ph(h);
      }
    }
  }

  // ----- masking -----

  /** Masking a secret under a placeholder that stands for it loses nothing. */
  lemma {:induction false} MaskThenExpand(t: Text, s: string, h: nat, vault: Vault)
    requires s != "" && h in vault && vault[h] == s
    ensures Expand(Replace(t, Chars(s), [Ph(h)]), vault) == Expand(t, vault)
    decreases |t|
  {
    if |t| < |s| {
    } else if Chars(s) <= t {
      var rest := t[|s|..];
      MaskThenExpand(rest, s, h, vault);
      assert t == Chars(s) + rest;
      ExpandConcat(Chars(s), rest, vault);
      ExpandLeavesUnknown(Chars(s), vault);
      ExpandConcat([Ph(h)], Replace(rest, Chars(s), [Ph(h)]), vault);
      assert Expand([Ph(h)], vault) == Chars(s);
    } else {
      MaskThenExpand(t[1..], s, h, vault);
    }
  }

  /** A run of characters at the front of a masked text was at the front before. */
  lemma {:induction false} PrefixKept(t: Text, p: string, h: nat, s: string)
    requires p != "" && Chars(s) <= Replace(t, Chars(p), [Ph(h)])
    ensures Chars(s) <= t
    decreases |t|
  {
    if |t| >= |p| && s != "" {
      var r := Replace(t, Chars(p), [Ph(h)]);
      assert r[0] == Chars(s)[0];
      assert r[1..] == Replace(t[1..], Chars(p), [Ph(h)]);
      assert Chars(s)[1..] == Chars(s[1..]);
      PrefixKept(t[1..], p, h, s[1..]);
    }
  }

  lemma {:induction false} OccursInSuffix(t: Text, n: nat, s: string)
    requires n <= |t| && Occurs(t[n..], s)
    ensures Occurs(t, s)
    decreases n
  {
    if n == 0 {
      assert t[0..] == t;
    } else {
      assert t[n - 1..][1..] == t[n..];
      OccursInSuffix(t, n - 1, s);
    }
  }

  /** Masking never brings a secret into being. */
  lemma {:induction false} MaskAddsNothing(t: Text, p: string, h: nat, s: string)
    requires p != "" && s != "" && Occurs(Replace(t, Chars(p), [Ph(h)]), s)
    ensures Occurs(t, s)
    decreases |t|
  {
    var r := Replace(t, Chars(p), [Ph(h)]);
    if Chars(s) <= r {
      PrefixKept(t, p, h, s);
    } else if |t| >= |p| {
      if Chars(p) <= t {
        assert r[1..] == Replace(t[|p|..], Chars(p), [Ph(h)]);
        MaskAddsNothing(t[|p|..], p, h, s);
        OccursInSuffix(t, |p|, s);
      } else {
        assert r[1..] == Replace(t[1..], Chars(p), [Ph(h)]);
        MaskAddsNothing(t[1..], p, h, s);
      }
    }
  }

  lemma {:induction false} ShortTextsHoldNothing(t: Text, s: string)
    requires |t| < |s|
    ensures !Occurs(t, s)
  {
    if t != [] { ShortTextsHoldNothing(t[1..], s); }
  }

  /** A masked secret is gone. */
  lemma {:induction false} MaskRemoves(t: Text, s: string, h: nat)
    requires s != ""
    ensures !Occurs(Replace(t, Chars(s), [Ph(h)]), s)
    decreases |t|
  {
    var r := Replace(t, Chars(s), [Ph(h)]);
    if |t| < |s| {
      ShortTextsHoldNothing(t, s);
    } else if Chars(s) <= t {
      MaskRemoves(t[|s|..], s, h);
      assert r[1..] == Replace(t[|s|..], Chars(s), [Ph(h)]);
      assert r[0] == Ph(h) && Chars(s)[0].Ch?;
    } else {
      MaskRemoves(t[1..], s, h);
      assert r[1..] == Replace(t[1..], Chars(s), [Ph(h)]);
      if Chars(s) <= r { PrefixKept(t, s, h, s); }
    }
  }

  /** Masking introduces at most its own placeholder. */
  lemma {:induction false} MaskPlaceholders(t: Text, s: string, h: nat)
    requires s != ""
    ensures Placeholders(Replace(t, Chars(s), [Ph(h)])) <= Placeholders(t) + {h}
    decreases |t|
  {
    if |t| >= |s| {
      var cut := if Chars(s) <= t then |s| else 1;
      var rest := Replace(t[cut..], Chars(s), [Ph(h)]);
      MaskPlaceholders(t[cut..], s, h);
      var r := Replace(t, Chars(s), [Ph(h)]);
      forall g | g in Placeholders(r) ensures g in Placeholders(t) + {h} {
        var i :| 0 <= i < |r| && r[i].Ph? && r[i].id == g;
        if i > 0 {
          assert r[i] == rest[i - 1];
          assert g in Placeholders(t[cut..]) + {h};
          assert forall j :: 0 <= j < |t[cut..]| ==> t[cut..][j] == t[j + cut];
        }
      }
    }
  }
}

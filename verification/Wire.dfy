/**
 The wire form of a manifest: chunk indexes printed in decimal and parsed
 back. JSON itself is taken as the identity on maps from strings.
 */
module Wire {
  import opened Bytes
  import opened Chunks

  // ----- Decimal printing and parsing of int64 -----

  function DigitChar(d: int): (c: char)
    requires 0 <= d < 10
    ensures '0' <= c <= '9'
  {
    ('0' as int + d) as char
  }

  function FormatNat(n: nat): (s: string)
    ensures |s| > 0
    ensures forall i :: 0 <= i < |s| ==> '0' <= s[i] <= '9'
  {
    if n < 10 then [DigitChar(n)] else FormatNat(n / 10) + [DigitChar(n % 10)]
  }

  function FormatInt(k: int): string {
    if k < 0 then "-" + FormatNat(-k) else FormatNat(k)
  }

  function ParseDigits(s: string): Option<nat> {
    if s == [] then Some(0)
    else
      var c := s[|s| - 1];
      match ParseDigits(s[..|s| - 1])
      case None => None
      case Some(high) => if '0' <= c <= '9' then Some(10 * high + (c as int - '0' as int)) else None
  }

  /** An optional sign and at least one digit. */
  function ParseSigned(s: string): Option<int> {
    if s == [] then None
    else
      var digits := if s[0] == '-' || s[0] == '+' then s[1..] else s;
      match ParseDigits(digits)
      case None => None
      case Some(n) => if digits == [] then None else if s[0] == '-' then Some(-(n as int)) else Some(n as int)
  }

  /** Base ten, 64 bits: a well-formed number whose value fits. */
  function ParseInt(s: string): (r: Option<int>)
    ensures r.Some? ==> -TWO_63 <= r.value < TWO_63
  {
    match ParseSigned(s)
    case None => None
    case Some(v) => if -TWO_63 <= v < TWO_63 then Some(v) else None
  }

  lemma {:induction false} ParseOfFormatNat(n: nat)
    ensures ParseDigits(FormatNat(n)) == Some(n)
  {
    var s := FormatNat(n);
    if n < 10 {
      assert s[..0] == [];
      assert ParseDigits(s[..0]) == Some(0);
    } else {
      ParseOfFormatNat(n / 10);
      assert s[..|s| - 1] == FormatNat(n / 10);
    }
  }

  lemma ParseSignedOfFormat(k: int)
    ensures ParseSigned(FormatInt(k)) == Some(k)
  {
    var digits := FormatNat(if k < 0 then -k else k);
    ParseOfFormatNat(if k < 0 then -k else k);
    if k < 0 {
      assert ("-" + digits)[1..] == digits;
    } else {
      assert '0' <= digits[0] <= '9';
    }
  }

  /** Parsing inverts printing on exactly the integers that fit in 64 bits. */
  lemma ParseOfFormat(k: int)
    ensures ParseInt(FormatInt(k)) == if -TWO_63 <= k < TWO_63 then Some(k) else None
  {
    hide ParseSigned, FormatInt;
    ParseSignedOfFormat(k);
  }

  /** Different indexes print differently, so no two manifest entries merge on the wire. */
  lemma FormatInjective(a: int, b: int)
    requires FormatInt(a) == FormatInt(b)
    ensures a == b
  {
    hide ParseSigned, FormatInt;
    ParseSignedOfFormat(a);
    ParseSignedOfFormat(b);
  }

  // ----- What the digits mean -----

  predicate Digits(s: string) {
    forall i :: 0 <= i < |s| ==> '0' <= s[i] <= '9'
  }

  function Pow10(n: nat): (p: nat)
    ensures p >= 1
  {
    if n == 0 then 1 else 10 * Pow10(n - 1)
  }

  /** The sum of the digits, each times ten to the power of its place, taken from the left. */
  function Decimal(s: string): (n: int)
    requires Digits(s)
    ensures n >= 0
  {
    if s == [] then 0
    else
      var d, p := s[0] as int - '0' as int, Pow10(|s| - 1);
      NotNegative(d, p);
      d * p + Decimal(s[1..])
  }

  lemma NotNegative(a: int, b: int)
    requires a >= 0 && b >= 0
    ensures a * b >= 0
  {
  }

  lemma {:induction false} DecimalSnoc(s: string, c: char)
    requires Digits(s) && '0' <= c <= '9'
    ensures Digits(s + [c]) && Decimal(s + [c]) == 10 * Decimal(s) + (c as int - '0' as int)
  {
    if s == [] {
      assert s + [c] == [c] && [c][1..] == [];
    } else {
      DecimalSnoc(s[1..], c);
      assert (s + [c])[1..] == s[1..] + [c];
      TimesTen(s[0] as int - '0' as int, Pow10(|s| - 1));
    }
  }

  lemma TimesTen(d: int, p: int)
    ensures d * (10 * p) == 10 * (d * p)
  {
  }

  /** The digits of a string mean their decimal sum, and nothing but digits means anything. */
  lemma {:induction false} ParseDigitsMeaning(s: string)
    ensures ParseDigits(s) == if Digits(s) then Some(Decimal(s)) else None
  {
    if s != [] {
      var front, c := s[..|s| - 1], s[|s| - 1];
      assert s == front + [c];
      ParseDigitsMeaning(front);
      if Digits(front) && '0' <= c <= '9' {
        DecimalSnoc(front, c);
      }
    }
  }

  /** `s` is the decimal spelling of `n`: digits, without leading zeros, that add up to it. */
  predicate SpellsNat(s: string, n: nat) {
    s != [] && Digits(s) && Decimal(s) == n && (s[0] == '0' ==> |s| == 1)
  }

  /** The same with a minus sign for a negative number. */
  predicate Spells(s: string, k: int) {
    if k < 0 then s != [] && s[0] == '-' && SpellsNat(s[1..], -k) else SpellsNat(s, k)
  }

  lemma {:induction false} FormatNatSpells(n: nat)
    ensures SpellsNat(FormatNat(n), n)
  {
    if n < 10 {
      DecimalSnoc([], DigitChar(n));
      assert [] + [DigitChar(n)] == FormatNat(n);
    } else {
      FormatNatSpells(n / 10);
      DecimalSnoc(FormatNat(n / 10), DigitChar(n % 10));
      if FormatNat(n / 10)[0] == '0' {
        ZeroFront(FormatNat(n / 10));
      }
    }
  }

  lemma ZeroFront(s: string)
    requires |s| == 1 && s[0] == '0'
    ensures Digits(s) && Decimal(s) == 0
  {
    assert s[1..] == [];
  }

  /** There is no other spelling. */
  lemma {:induction false} SpelledOnce(s: string, n: nat)
    requires SpellsNat(s, n)
    ensures s == FormatNat(n)
    decreases |s|
  {
    hide Decimal, FormatNat, DigitChar;
    var front, c := s[..|s| - 1], s[|s| - 1];
    assert s == front + [c];
    assert forall i :: 0 <= i < |front| ==> front[i] == s[i];
    DecimalSnoc(front, c);
    var high, low := Decimal(front), c as int - '0' as int;
    if front == [] {
      NoDigits(front);
    } else {
      LeadingDigit(front);
      SpelledOnce(front, high);
    }
    FormatUnfold(high, low, c);
  }

  lemma FormatUnfold(high: nat, low: nat, c: char)
    requires low < 10 && c as int == '0' as int + low
    ensures FormatNat(10 * high + low) == if high == 0 then [c] else FormatNat(high) + [c]
  {
    var n := 10 * high + low;
    assert n / 10 == high && n % 10 == low;
  }

  lemma NoDigits(s: string)
    requires s == []
    ensures Digits(s) && Decimal(s) == 0
  {
  }

  lemma LeadingDigit(s: string)
    requires s != [] && Digits(s) && s[0] != '0'
    ensures Decimal(s) > 0
  {
    Positive(s[0] as int - '0' as int, Pow10(|s| - 1));
  }

  lemma Positive(a: int, b: int)
    requires a > 0 && b > 0
    ensures a * b > 0
  {
  }

  /** What is printed for a number is its decimal spelling, and nothing else is. */
  lemma FormatMeaning(k: int, s: string)
    ensures s == FormatInt(k) <==> Spells(s, k)
  {
    hide FormatNat, SpellsNat;
    var n := if k < 0 then -k else k;
    FormatNatSpells(n);
    if k < 0 {
      assert ("-" + FormatNat(n))[1..] == FormatNat(n);
    }
    if Spells(s, k) {
      SpelledOnce(if k < 0 then s[1..] else s, n);
      if k < 0 {
        assert s == "-" + s[1..];
      }
    }
  }

  /** `s` may be read as `k`: at most one sign, then digits, leading zeros allowed, and the value fits 64 bits. */
  predicate Denotes(s: string, k: int) {
    && s != [] && -TWO_63 <= k < TWO_63
    && var digits := if s[0] == '-' || s[0] == '+' then s[1..] else s;
    && digits != [] && Digits(digits)
    && k == if s[0] == '-' then -Decimal(digits) else Decimal(digits)
  }

  /** That is exactly what parsing yields. */
  lemma ParseMeaning(s: string, k: int)
    ensures ParseInt(s) == Some(k) <==> Denotes(s, k)
  {
    hide ParseDigits, Decimal, Digits;
    if s != [] {
      ParseDigitsMeaning(if s[0] == '-' || s[0] == '+' then s[1..] else s);
    }
  }

  // ----- Manifests -----

  lemma FormatInjectiveOn(ks: set<int>)
    ensures forall a, b :: a in ks && b in ks && FormatInt(a) == FormatInt(b) ==> a == b
  {
    forall a, b | a in ks && b in ks && FormatInt(a) == FormatInt(b)
      ensures a == b
    {
      FormatInjective(a, b);
    }
  }

  ghost function ToWire<V>(m: map<int, V>): map<string, V> {
    FormatInjectiveOn(m.Keys);
    map k | k in m :: FormatInt(k) := m[k]
  }

  /** The entry that chunk `k` gets on the wire. */
  lemma WireEntry<V>(m: map<int, V>, k: int)
    requires k in m
    ensures FormatInt(k) in ToWire(m) && ToWire(m)[FormatInt(k)] == m[k]
  {
    FormatInjectiveOn(m.Keys);
  }

  /** The chunk that a wire entry came from. */
  lemma WireOrigin<V>(m: map<int, V>, s: string) returns (k: int)
    requires s in ToWire(m)
    ensures k in m && s == FormatInt(k) && ToWire(m)[s] == m[k]
  {
    k :| k in m && s == FormatInt(k);
    WireEntry(m, k);
  }

  predicate AllParse<V>(w: map<string, V>) {
    forall s :: s in w ==> ParseInt(s).Some?
  }

  /**
   `m` is one of the manifests that `w` may load as. Two keys such as "1" and
   "+1" name the same chunk, and then either entry may win.
   */
  ghost predicate LoadsAs<V>(w: map<string, V>, m: map<int, V>) {
    && AllParse(w)
    && (forall s :: s in w ==> ParseInt(s).value in m)
    && (forall i :: i in m ==> exists s :: s in w && ParseInt(s) == Some(i) && w[s] == m[i])
  }

  /** Every key is spelled the way the printer spells it. */
  predicate Canonical<V>(w: map<string, V>) {
    forall s :: s in w ==> ParseInt(s).Some? && FormatInt(ParseInt(s).value) == s
  }

  /** The wire form has each entry under the decimal spelling of its index, and no other. */
  lemma WireMeaning<V>(m: map<int, V>)
    ensures forall k, s :: k in m && Spells(s, k) ==> s in ToWire(m) && ToWire(m)[s] == m[k]
    ensures forall s :: s in ToWire(m) ==> exists k :: k in m && Spells(s, k)
  {
    hide ToWire, FormatInt, Spells;
    forall k, s | k in m && Spells(s, k)
      ensures s in ToWire(m) && ToWire(m)[s] == m[k]
    {
      FormatMeaning(k, s);
      WireEntry(m, k);
    }
    forall s | s in ToWire(m)
      ensures exists k :: k in m && Spells(s, k)
    {
      var k := WireOrigin(m, s);
      FormatMeaning(k, s);
    }
  }

  method ManifestToWire<V>(m: map<int, V>) returns (w: map<string, V>)
    ensures w == ToWire(m)
    ensures forall k, s :: k in m && Spells(s, k) ==> s in w && w[s] == m[k]
    ensures forall s :: s in w ==> exists k :: k in m && Spells(s, k)
  {
    hide ToWire, FormatInt, Spells;
    WireMeaning(m);
    ToWireEmpty<V>();
    w := map[];
    var done: map<int, V>, rest: set<int> := map[], m.Keys;
    while rest != {}
      invariant rest <= m.Keys
      invariant done == m - rest
      invariant w == ToWire(done)
      decreases rest
    {
      ghost var member := Member(rest);
      var k: int :| k in rest;
      ToWireStep(done, k, m[k]);
      w := w[FormatInt(k) := m[k]];
      done := done[k := m[k]];
      rest := rest - {k};
    }
    assert done == m;
  }

  lemma ToWireEmpty<V>()
    ensures ToWire<V>(map[]) == map[]
  {
  }

  lemma ToWireStep<V>(m: map<int, V>, k: int, v: V)
    requires k !in m
    ensures ToWire(m[k := v]) == ToWire(m)[FormatInt(k) := v]
  {
    hide FormatInt;
    var n := m[k := v];
    FormatInjectiveOn(n.Keys);
    assert forall i :: i in n ==> i == k || i in m;
    assert ToWire(n).Keys == ToWire(m)[FormatInt(k) := v].Keys;
  }

  /** Every key denotes a number. */
  ghost predicate Readable<V>(w: map<string, V>) {
    forall s :: s in w ==> exists k :: Denotes(s, k)
  }

  /** Each chunk that a key denotes is there, with the entry of some key that denotes it. */
  ghost predicate Reads<V>(w: map<string, V>, m: map<int, V>) {
    && (forall s, k :: s in w && Denotes(s, k) ==> k in m)
    && (forall k :: k in m ==> exists s :: s in w && Denotes(s, k) && w[s] == m[k])
  }

  /** What a wire form may load as, in terms of the numbers its keys denote. */
  lemma LoadsMeaning<V>(w: map<string, V>, m: map<int, V>)
    ensures AllParse(w) <==> Readable(w)
    ensures LoadsAs(w, m) <==> Readable(w) && Reads(w, m)
  {
    hide ParseInt, Denotes;
    forall s | s in w
      ensures ParseInt(s).Some? <==> exists k :: Denotes(s, k)
      ensures forall k :: Denotes(s, k) <==> ParseInt(s) == Some(k)
    {
      forall k
        ensures Denotes(s, k) <==> ParseInt(s) == Some(k)
      {
        ParseMeaning(s, k);
      }
      if ParseInt(s).Some? {
        assert Denotes(s, ParseInt(s).value);
      }
    }
  }

  method ManifestFromWire<V>(w: map<string, V>) returns (r: Result<map<int, V>>)
    ensures r.Ok? <==> AllParse(w)
    ensures r.Ok? ==> LoadsAs(w, r.value)
    ensures r.Ok? <==> Readable(w)
    ensures r.Ok? ==> Reads(w, r.value)
  {
    hide Readable, Reads, ParseInt;
    var out: map<int, V> := map[];
    var rest := w.Keys;
    while rest != {}
      invariant rest <= w.Keys
      invariant forall s :: s in w.Keys - rest ==> ParseInt(s).Some? && ParseInt(s).value in out
      invariant forall i :: i in out ==> exists s :: s in w.Keys - rest && ParseInt(s) == Some(i) && w[s] == out[i]
      decreases |rest|
    {
      var s :| s in rest;
      var idx := ParseInt(s);
      if idx.None? {
        LoadsMeaning(w, out);
        return Err(Io);
      }
      ghost var before := out;
      ghost var done := w.Keys - rest;
      out := out[idx.value := w[s]];
      rest := rest - {s};
      assert w.Keys - rest == done + {s};
      forall i | i in out
        ensures exists t :: t in w.Keys - rest && ParseInt(t) == Some(i) && w[t] == out[i]
      {
        if i != idx.value {
          var t :| t in done && ParseInt(t) == Some(i) && w[t] == before[i];
          assert t in w.Keys - rest;
        } else {
          assert s in w.Keys - rest;
        }
      }
    }
    r := Ok(out);
    LoadsMeaning(w, out);
  }

  /** A manifest with int64 indexes survives the wire unchanged, and is the only thing its wire form loads as. */
  lemma WireRoundTrip<V>(m: map<int, V>, out: map<int, V>)
    requires forall i :: i in m ==> -TWO_63 <= i < TWO_63
    ensures AllParse(ToWire(m))
    ensures LoadsAs(ToWire(m), out) <==> out == m
  {
    hide ParseInt, FormatInt, ToWire;
    var w := ToWire(m);
    forall s | s in w
      ensures ParseInt(s).Some? && ParseInt(s).value in m && w[s] == m[ParseInt(s).value]
    {
      var k := WireOrigin(m, s);
      ParseOfFormat(k);
    }
    forall i | i in m
      ensures exists s :: s in w && ParseInt(s) == Some(i) && w[s] == m[i]
    {
      WireEntry(m, i);
      ParseOfFormat(i);
    }
    if LoadsAs(w, out) {
      forall i | i in m
        ensures i in out
      {
        WireEntry(m, i);
        ParseOfFormat(i);
      }
      assert forall i :: i in out ==> i in m && out[i] == m[i];
    }
  }

  /** The other direction: loading and printing again gives the same wire form exactly when its keys were canonical. */
  lemma WireCanonical<V>(w: map<string, V>, m: map<int, V>)
    requires LoadsAs(w, m)
    ensures ToWire(m) == w <==> Canonical(w)
  {
    hide ParseInt, FormatInt, ToWire;
    if ToWire(m) == w {
      forall s | s in w
        ensures FormatInt(ParseInt(s).value) == s
      {
        var k := WireOrigin(m, s);
        ParseOfFormat(k);
      }
    }
    if Canonical(w) {
      CanonicalEntries(w, m);
    }
  }

  lemma CanonicalEntries<V>(w: map<string, V>, m: map<int, V>)
    requires LoadsAs(w, m)
    requires Canonical(w)
    ensures ToWire(m) == w
  {
    hide ParseInt, FormatInt, ToWire;
    var t := ToWire(m);
    forall s | s in w
      ensures s in t && t[s] == w[s]
    {
      var i := ParseInt(s).value;
      var u :| u in w && ParseInt(u) == Some(i) && w[u] == m[i];
      assert FormatInt(i) == u == s;
      WireEntry(m, i);
    }
    forall s | s in t
      ensures s in w
    {
      var k := WireOrigin(m, s);
      var u :| u in w && ParseInt(u) == Some(k) && w[u] == m[k];
      assert FormatInt(k) == u;
    }
    assert t.Keys == w.Keys;
  }

  /** A spelling that loads but does not print back. */
  lemma PlusOneLoads<V>(v: V)
    ensures LoadsAs(map["+1" := v], map[1 := v]) && !Canonical(map["+1" := v])
  {
    assert "+1"[1..] == "1" && "1"[..0] == [];
    assert ParseDigits("1") == Some(1);
    var w := map["+1" := v];
    assert "+1" in w && ParseInt("+1") == Some(1);
  }
}

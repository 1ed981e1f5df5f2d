/** The sharing helpers: share keys (eight characters from A-Z and 0-9),
    the role names the invitation vocabulary accepts, and e-mail
    normalisation. Randomness becomes an input: the key generator is given
    the eight draws `Math.floor(Math.random() * 36)` would have produced. */
module SharingUtils {
  import opened Wrappers
  import opened Text
  import opened Js
  import Roles

  const KeyAlphabet := "ABCDEFGHIJKLMNOPQRSTUVWXYZ0123456789"
  const KeyLength := 8

  /** A character of the class [A-Z0-9]. */
  predicate IsKeyChar(c: char) {
    ('A' <= c <= 'Z') || ('0' <= c <= '9')
  }

  /** The whole string matches /^[A-Z0-9]{8}$/. */
  predicate IsKeyShaped(s: string) {
    |s| == KeyLength && forall i :: 0 <= i < |s| ==> IsKeyChar(s[i])
  }

  /** The alphabet the generator draws from is exactly the character class
      the validator accepts. */
  lemma AlphabetIsKeyClass(c: char)
    ensures c in KeyAlphabet <==> IsKeyChar(c)
  {
    if IsKeyChar(c) {
      AlphabetCovers(c);
    } else {
      AlphabetEntries();
    }
  }

  /** Every alphabet entry is in the class. */
  lemma AlphabetEntries()
    ensures forall i :: 0 <= i < |KeyAlphabet| ==> IsKeyChar(KeyAlphabet[i])
  {
  }

  /** Every character of the class is an alphabet entry. */
  lemma AlphabetCovers(c: char)
    requires IsKeyChar(c)
    ensures c in KeyAlphabet
  {
    if 'A' <= c <= 'Z' {
      assert KeyAlphabet[c as int - 'A' as int] == c;
    } else {
      assert KeyAlphabet[26 + c as int - '0' as int] == c;
    }
  }

  /** The alphabet entry a draw picks. */
  function KeyChar(d: nat): (c: char)
    requires d < |KeyAlphabet|
    ensures IsKeyChar(c)
  {
    AlphabetIsKeyClass(KeyAlphabet[d]);
    KeyAlphabet[d]
  }

  /** generarClaveCompartir: character i of the key is the alphabet entry
      picked by draw i, so every generated key passes validation. */
  method GenerateKey(draws: seq<nat>) returns (key: string)
    requires |draws| == KeyLength
    requires forall i :: 0 <= i < |draws| ==> draws[i] < |KeyAlphabet|
    ensures |key| == KeyLength
    ensures forall i :: 0 <= i < KeyLength ==> key[i] == KeyChar(draws[i])
    ensures IsValidKey(JStr(key))
  {
    key := "";
    var i := 0;
    while i < KeyLength
      invariant 0 <= i <= KeyLength
      invariant |key| == i
      invariant forall k :: 0 <= k < i ==> key[k] == KeyChar(draws[k])
    {
      key := key + [KeyChar(draws[i])];
      i := i + 1;
    }
  }

  /** validarClaveCompartir: false for a falsy or non-string value, then
      the /^[A-Z0-9]{8}$/ test. */
  predicate IsValidKey(v: JsValue) {
    Truthy(v) && v.JStr? && IsKeyShaped(v.s)
  }

  /** What the validator accepts is exactly a string of eight key
      characters; in particular no falsy value and no non-string passes. */
  lemma ValidKeyMeaning(v: JsValue)
    ensures IsValidKey(v) <==> exists s :: v == JStr(s) && IsKeyShaped(s)
  {
    if v.JStr? && IsKeyShaped(v.s) {
      assert v.s != "";
    }
  }

  /** esRolValido: the invitation vocabulary 'admin', 'colaborador',
      'lector' (neither 'editor' nor the stored name 'visor'). */
  predicate IsValidRole(r: string) {
    r == Roles.Admin || r == Roles.Collaborator || r == Roles.Reader
  }

  /** Every name esRolValido accepts translates to a role the grant tables
      store, and none of them is the owner pseudo-role. */
  lemma ValidRoleIsStorable(r: string)
    requires IsValidRole(r)
    ensures Roles.IsStoredRole(Roles.ToStored(r))
    ensures Roles.ToStored(r) != Roles.Owner
  {
  }

  /** normalizarEmail: "" for a falsy value, otherwise the lower-cased,
      trimmed string; a truthy non-string has no toLowerCase and throws,
      which is None here. */
  function NormalizeEmail(v: JsValue): (r: Option<string>)
    ensures !Truthy(v) ==> r == Some("")
    ensures v.JStr? ==> r.Some?
    ensures Truthy(v) && !v.JStr? ==> r == None
    ensures r.Some? ==> r.value == [] || (!IsSpace(r.value[0]) && !IsSpace(r.value[|r.value| - 1]))
    ensures r.Some? ==> Lower(r.value) == r.value
  {
    if !Truthy(v) then Some("")
    else if v.JStr? then LowerTrimIsLower(v.s); Some(Trim(Lower(v.s)))
    else None
  }

  /** Trimming a lower-cased string leaves it lower-cased. */
  lemma LowerTrimIsLower(s: string)
    ensures Lower(Trim(Lower(s))) == Trim(Lower(s))
  {
    var l := Lower(s);
    var e := Trim(l);
    var a := LeadingSpace(l);
    forall k | 0 <= k < |e|
      ensures Lower(e)[k] == e[k]
    {
      assert e[k] == l[a + k] == LowerChar(s[a + k]);
      LowerCharIdempotent(s[a + k]);
    }
  }

  /** What normalising means: an address written with white space around
      a core that neither starts nor ends with white space normalises to
      that core, lower-cased. Every string has this shape, so this fixes
      the result for every string. */
  lemma NormalizeEmailMeaning(p: string, core: string, q: string)
    requires AllSpace(p) && AllSpace(q)
    requires core == [] || (!IsSpace(core[0]) && !IsSpace(core[|core| - 1]))
    ensures NormalizeEmail(JStr(p + core + q)) == Some(Lower(core))
  {
    NormalizeEmailIgnoresPadding(p, core, q);
    var lc := Lower(core);
    if core != [] {
      LowerCharKeepsSpace(core[0]);
      LowerCharKeepsSpace(core[|core| - 1]);
    }
    TrimFixed(lc);
  }

  /** Normalising an already normalised address changes nothing. */
  lemma NormalizeEmailIdempotent(v: JsValue)
    requires NormalizeEmail(v).Some?
    ensures NormalizeEmail(JStr(NormalizeEmail(v).value)) == NormalizeEmail(v)
  {
    if v.JStr? && Truthy(v) {
      LowerTrimFixed(v.s);
    }
  }

  /** A lower-cased, trimmed string is fixed by lower-casing and trimming. */
  lemma LowerTrimFixed(s: string)
    ensures Trim(Lower(Trim(Lower(s)))) == Trim(Lower(s))
  {
    LowerTrimIsLower(s);
    TrimFixed(Trim(Lower(s)));
  }

  /** Addresses that differ only in letter case normalise to the same
      string. */
  lemma NormalizeEmailIgnoresCase(a: string, b: string)
    requires Lower(a) == Lower(b)
    ensures NormalizeEmail(JStr(a)) == NormalizeEmail(JStr(b))
  {
    if a == "" || b == "" {
      assert |a| == |Lower(a)| == |Lower(b)| == |b|;
    }
  }

  /** White space before or after an address does not change its
      normalised form. */
  lemma NormalizeEmailIgnoresPadding(p: string, a: string, q: string)
    requires AllSpace(p) && AllSpace(q)
    ensures NormalizeEmail(JStr(p + a + q)) == NormalizeEmail(JStr(a))
  {
    var lp, la, lq := Lower(p), Lower(a), Lower(q);
    assert Lower(p + a + q) == lp + la + lq;
    forall k | 0 <= k < |p| ensures IsSpace(lp[k]) { LowerCharKeepsSpace(p[k]); }
    forall k | 0 <= k < |q| ensures IsSpace(lq[k]) { LowerCharKeepsSpace(q[k]); }
    TrimPadded(lp, la, lq);
    if a == "" {
      TrimEmptyIffAllSpace(la);
    }
  }
}

/** The pure helpers of the e-mail service: filling `{{KEY}}` placeholders
    of a template, and the test-mode redirection of the recipient. Loading
    templates and sending mail are I/O and not part of this model. */
module Email {
  import opened Wrappers
  import opened Text
  import Js

  /** The text `{{key}}` that stands for a value in a template. */
  function Placeholder(key: string): (p: string)
    ensures |p| == |key| + 4 && p[0] == '{'
  {
    "{{" + key + "}}"
  }

  /** reemplazarPlaceholders: for each key of `datos` in order, every
      occurrence of `{{key}}` is replaced by String(value). */
  function ReplacePlaceholders(html: string, datos: seq<(string, Js.JsValue)>): (r: string)
    ensures datos == [] ==> r == html
    ensures '{' !in html ==> r == html
    decreases |datos|
  {
    if datos == [] then html
    else
      var once := ReplaceAll(html, Placeholder(datos[0].0), Js.Show(datos[0].1));
      if '{' !in html then
        NoPlaceholderIn(html, datos[0].0, "");
        assert html + "" == html;
        ReplaceAbsent(html, Placeholder(datos[0].0), Js.Show(datos[0].1));
        ReplacePlaceholders(once, datos[1..])
      else ReplacePlaceholders(once, datos[1..])
  }

  /** Scanning stops at no position before `m`, so the first `m`
      characters are copied as they are. */
  lemma {:induction false} ReplaceSkip(t: string, pat: string, rep: string, m: nat)
    requires |pat| > 0 && m <= |t|
    requires forall j :: 0 <= j < m ==> !OccursAt(t, pat, j)
    ensures ReplaceAll(t, pat, rep) == t[..m] + ReplaceAll(t[m..], pat, rep)
    decreases m
  {
    if m > 0 {
      if |t| < |pat| {
        assert ReplaceAll(t[m..], pat, rep) == t[m..];
        assert t[..m] + t[m..] == t;
      } else {
        NoOccurrenceShifts(t, pat, m);
        ReplaceSkip(t[1..], pat, rep, m - 1);
        TailSlices(t, m);
        ReplaceSkipStep(t, pat, rep, m);
      }
    }
  }

  /** No occurrence in t[1..m] means none in the first m - 1 positions of t[1..]. */
  lemma NoOccurrenceShifts(t: string, pat: string, m: nat)
    requires 0 < m <= |t|
    requires forall j :: 0 <= j < m ==> !OccursAt(t, pat, j)
    ensures forall j :: 0 <= j < m - 1 ==> !OccursAt(t[1..], pat, j)
  {
    var tail := t[1..];
    forall j | 0 <= j < m - 1
      ensures !OccursAt(tail, pat, j)
    {
      assert !OccursAt(t, pat, j + 1);
      if j + |pat| <= |tail| {
        assert tail[j..j + |pat|] == t[j + 1..j + 1 + |pat|];
      }
    }
  }

  lemma TailSlices(t: string, m: nat)
    requires 0 < m <= |t|
    ensures t[1..][..m - 1] == t[1..m] && t[1..][m - 1..] == t[m..]
  {
  }

  /** The inductive step of ReplaceSkip: the first character is copied. */
  lemma ReplaceSkipStep(t: string, pat: string, rep: string, m: nat)
    requires |pat| > 0 && 0 < m <= |t| && |pat| <= |t|
    requires !OccursAt(t, pat, 0)
    requires ReplaceAll(t[1..], pat, rep) == t[1..m] + ReplaceAll(t[m..], pat, rep)
    ensures ReplaceAll(t, pat, rep) == t[..m] + ReplaceAll(t[m..], pat, rep)
  {
    assert t[..|pat|] != pat by {
      assert t[0..|pat|] == t[..|pat|];
    }
    calc {
      ReplaceAll(t, pat, rep);
      [t[0]] + ReplaceAll(t[1..], pat, rep);
      [t[0]] + (t[1..m] + ReplaceAll(t[m..], pat, rep));
      ([t[0]] + t[1..m]) + ReplaceAll(t[m..], pat, rep);
      { assert [t[0]] + t[1..m] == t[..m]; }
      t[..m] + ReplaceAll(t[m..], pat, rep);
    }
  }

  /** The first occurrence the scan meets is replaced, and scanning resumes
      after it. */
  lemma ReplaceNext(t: string, pat: string, rep: string, rest: string)
    requires |pat| > 0
    requires forall j :: 0 <= j < |t| ==> !OccursAt(t + pat + rest, pat, j)
    ensures ReplaceAll(t + pat + rest, pat, rep) == t + rep + ReplaceAll(rest, pat, rep)
  {
    var s := t + pat + rest;
    ReplaceSkip(s, pat, rep, |t|);
    assert s[..|t|] == t;
    assert s[|t|..] == pat + rest;
    ReplaceFront(pat, rest, rep);
  }

  /** A placeholder cannot start inside text that has no `{`. */
  lemma NoPlaceholderIn(t: string, key: string, rest: string)
    requires '{' !in t
    ensures forall j :: 0 <= j < |t| ==> !OccursAt(t + rest, Placeholder(key), j)
  {
    forall j | 0 <= j < |t|
      ensures !OccursAt(t + rest, Placeholder(key), j)
    {
      assert (t + rest)[j] == t[j];
    }
  }

  /** A template without any `{` comes back unchanged, whatever the data. */
  lemma {:induction false} ReplaceWithoutBraces(html: string, datos: seq<(string, Js.JsValue)>)
    requires '{' !in html
    ensures ReplacePlaceholders(html, datos) == html
    decreases |datos|
  {
    if datos != [] {
      NoPlaceholderIn(html, datos[0].0, "");
      assert html + "" == html;
      ReplaceAbsent(html, Placeholder(datos[0].0), Js.Show(datos[0].1));
      ReplaceWithoutBraces(html, datos[1..]);
    }
  }

  /** A template in which no placeholder of the given keys occurs comes
      back unchanged. */
  lemma {:induction false} ReplaceWithoutKeys(html: string, datos: seq<(string, Js.JsValue)>)
    requires forall p :: p in datos ==> forall i :: !OccursAt(html, Placeholder(p.0), i)
    ensures ReplacePlaceholders(html, datos) == html
    decreases |datos|
  {
    if datos != [] {
      assert datos[0] in datos;
      ReplaceAbsent(html, Placeholder(datos[0].0), Js.Show(datos[0].1));
      forall p | p in datos[1..]
        ensures forall i :: !OccursAt(html, Placeholder(p.0), i)
      {
        assert p in datos;
      }
      ReplaceWithoutKeys(html, datos[1..]);
    }
  }

  /** A placeholder after brace-free text is filled, and the scan goes on. */
  lemma FillFirst(a: string, key: string, w: string, rest: string)
    requires '{' !in a
    ensures ReplaceAll(a + Placeholder(key) + rest, Placeholder(key), w)
      == a + w + ReplaceAll(rest, Placeholder(key), w)
  {
    NoPlaceholderIn(a, key, Placeholder(key) + rest);
    assert a + (Placeholder(key) + rest) == a + Placeholder(key) + rest;
    ReplaceNext(a, Placeholder(key), w, rest);
  }

  /** A single key replaces through ReplaceAll. */
  lemma OneKey(html: string, key: string, v: Js.JsValue)
    ensures ReplacePlaceholders(html, [(key, v)]) == ReplaceAll(html, Placeholder(key), Js.Show(v))
  {
    assert [(key, v)][1..] == [];
  }

  /** Every occurrence of the placeholder is filled: with brace-free text
      around two occurrences, both become the value. */
  lemma FillEveryOccurrence(a: string, b: string, c: string, key: string, v: Js.JsValue)
    requires '{' !in a && '{' !in b && '{' !in c
    ensures ReplacePlaceholders(a + Placeholder(key) + b + Placeholder(key) + c, [(key, v)])
      == a + Js.Show(v) + b + Js.Show(v) + c
  {
    var p, w := Placeholder(key), Js.Show(v);
    var x := a + p + b + p + c;
    var tail := b + p + c;
    assert x == a + p + tail;
    OneKey(x, key, v);
    FillFirst(a, key, w, tail);
    FillFirst(b, key, w, c);
    ReplaceWithoutBraces(c, [(key, v)]);
    OneKey(c, key, v);
    Concat5(a, w, b, w, c);
  }

  lemma Concat5(a: string, b: string, c: string, d: string, e: string)
    ensures a + b + (c + d + e) == a + b + c + d + e
  {
  }

  // ---------------------------------------------------------------------
  // obtenerEmailDestino

  /** Test mode is on when RESEND_TEST_MODE is exactly 'true' and a
      non-empty RESEND_TEST_EMAIL is set. */
  predicate TestMode(testMode: Option<string>, testEmail: Option<string>) {
    testMode == Some("true") && testEmail.Some? && testEmail.value != ""
  }

  /** obtenerEmailDestino: in test mode every message goes to the test
      address; otherwise to the given one. */
  function Destination(email: string, testMode: Option<string>, testEmail: Option<string>): (r: string)
    ensures TestMode(testMode, testEmail) ==> r == testEmail.value
    ensures !TestMode(testMode, testEmail) ==> r == email
  {
    if TestMode(testMode, testEmail) && email != testEmail.value then testEmail.value
    else email
  }

  /** Redirecting an already redirected address changes nothing. */
  lemma DestinationIdempotent(email: string, testMode: Option<string>, testEmail: Option<string>)
    ensures var d := Destination(email, testMode, testEmail);
      Destination(d, testMode, testEmail) == d
    ensures TestMode(testMode, testEmail) && email == testEmail.value
      ==> Destination(email, testMode, testEmail) == email
  {
  }
}

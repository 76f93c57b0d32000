/** Redaction of Stellar secret keys: `S` followed by 55 characters of the base-32 alphabet. */
module Redaction {

  const KEY_LENGTH: nat := 56
  const REDACTED: string := "[REDACTED]"

  predicate InAlphabet(c: char) {
    'A' <= c <= 'Z' || '2' <= c <= '7'
  }

  /** A secret key starts at `p`. */
  predicate SecretAt(s: string, p: nat) {
    p + KEY_LENGTH <= |s| && s[p] == 'S' && forall i | p < i < p + KEY_LENGTH :: InAlphabet(s[i])
  }

  ghost predicate Clean(s: string) {
    forall p: nat :: !SecretAt(s, p)
  }

  /** A key is an S and 55 further characters, each a capital letter (codes 65 to 90) or a digit from 2 to 7 (codes 50
      to 55), wherever it stands. */
  lemma SecretExactly(s: string, p: nat)
    ensures SecretAt(s, p) <==>
              && p + 56 <= |s| && s[p] as int == 83
              && forall i | p < i < p + 56 :: 65 <= s[i] as int <= 90 || 50 <= s[i] as int <= 55
  {
    hide InAlphabet;
    forall i | 0 <= i < |s| ensures InAlphabet(s[i]) <==> 65 <= s[i] as int <= 90 || 50 <= s[i] as int <= 55 {
      AlphabetCodes(s[i]);
    }
  }

  lemma AlphabetCodes(c: char)
    ensures InAlphabet(c) <==> 65 <= c as int <= 90 || 50 <= c as int <= 55
  {
  }

  /** Replaces leftmost non-overlapping secrets. */
  function Redact(s: string): string {
    if |s| == 0 then ""
    else if SecretAt(s, 0) then REDACTED + Redact(s[KEY_LENGTH..])
    else [s[0]] + Redact(s[1..])
  }

  lemma SecretShift(s: string, k: nat, p: nat)
    requires k <= |s|
    ensures SecretAt(s[k..], p) <==> SecretAt(s, k + p)
  {
    if SecretAt(s, k + p) {
      forall i | p < i < p + KEY_LENGTH ensures InAlphabet(s[k..][i]) { assert s[k..][i] == s[k + i]; }
    }
    if SecretAt(s[k..], p) {
      forall i | k + p < i < k + p + KEY_LENGTH ensures InAlphabet(s[i]) { assert s[i] == s[k..][i - k]; }
    }
  }

  /** A result begins with the replacement text or with the first character. */
  lemma HeadOfRedacted(s: string)
    requires |s| > 0
    ensures |Redact(s)| > 0
    ensures if SecretAt(s, 0) then !InAlphabet(Redact(s)[0])
            else Redact(s)[0] == s[0] && Redact(s)[1..] == Redact(s[1..])
  {
    assert REDACTED[0] == '[';
  }

  /** As far as the result begins with alphabet characters, it is the text itself. */
  lemma {:induction false} AlphabetPrefixIsCopied(s: string, n: nat)
    requires n <= |Redact(s)| && forall i | 0 <= i < n :: InAlphabet(Redact(s)[i])
    ensures n <= |s| && Redact(s)[..n] == s[..n]
  {
    if n > 0 {
      HeadOfRedacted(s);
      assert InAlphabet(Redact(s)[0]);
      forall i | 0 <= i < n - 1 ensures InAlphabet(Redact(s[1..])[i]) { assert Redact(s[1..])[i] == Redact(s)[i + 1]; }
      AlphabetPrefixIsCopied(s[1..], n - 1);
      assert s[..n] == [s[0]] + s[1..][..n - 1];
      assert Redact(s)[..n] == [s[0]] + Redact(s[1..])[..n - 1];
    }
  }

  /** No secret begins inside the replacement text, so none straddles its end. */
  lemma ReplacementHidesNothing(rest: string, p: nat)
    requires p < |REDACTED|
    ensures !SecretAt(REDACTED + rest, p)
  {
    assert (REDACTED + rest)[p] == REDACTED[p] != 'S';
  }

  lemma SameStart(r: string, s: string)
    requires |r| >= KEY_LENGTH && |s| >= KEY_LENGTH && r[..KEY_LENGTH] == s[..KEY_LENGTH]
    ensures SecretAt(r, 0) <==> SecretAt(s, 0)
  {
    forall i | 0 <= i < KEY_LENGTH ensures r[i] == s[i] {
      assert r[..KEY_LENGTH][i] == s[..KEY_LENGTH][i];
    }
  }

  /** No secret is left anywhere in the result. */
  lemma RedactedIsClean(s: string)
    ensures Clean(Redact(s))
  {
    forall p: nat ensures !SecretAt(Redact(s), p) {
      NoSecretAt(s, p);
    }
  }

  lemma {:induction false} NoSecretAt(s: string, p: nat)
    ensures !SecretAt(Redact(s), p)
    decreases |s|
  {
    if |s| == 0 {
    } else if SecretAt(s, 0) {
      var rest := Redact(s[KEY_LENGTH..]);
      if p < |REDACTED| {
        ReplacementHidesNothing(rest, p);
      } else if p <= |Redact(s)| {
        assert Redact(s)[|REDACTED|..] == rest;
        SecretShift(Redact(s), |REDACTED|, p - |REDACTED|);
        NoSecretAt(s[KEY_LENGTH..], p - |REDACTED|);
      }
    } else {
      assert Redact(s)[1..] == Redact(s[1..]);
      if p > 0 {
        SecretShift(Redact(s), 1, p - 1);
        NoSecretAt(s[1..], p - 1);
      } else if SecretAt(Redact(s), 0) {
        AlphabetPrefixIsCopied(s, KEY_LENGTH);
        SameStart(Redact(s), s);
      }
    }
  }

  /** Text without secrets is left as it is. */
  lemma {:induction false} CleanIsUnchanged(s: string)
    requires Clean(s)
    ensures Redact(s) == s
  {
    if |s| > 0 {
      forall p: nat ensures !SecretAt(s[1..], p) { SecretShift(s, 1, p); }
      CleanIsUnchanged(s[1..]);
    }
  }

  lemma RedactIsIdempotent(s: string)
    ensures Redact(Redact(s)) == Redact(s)
  {
    RedactedIsClean(s);
    CleanIsUnchanged(Redact(s));
  }

  /** The leftmost secret, and nothing else up to its end, is replaced; the rest is redacted on its own. */
  lemma {:induction false} LeftmostIsReplaced(s: string, p: nat)
    requires SecretAt(s, p) && forall q | 0 <= q < p :: !SecretAt(s, q)
    ensures Redact(s) == s[..p] + "[REDACTED]" + Redact(s[p + 56..])
  {
    if p > 0 {
      SecretShift(s, 1, p - 1);
      forall q | 0 <= q < p - 1 ensures !SecretAt(s[1..], q) { SecretShift(s, 1, q); }
      LeftmostIsReplaced(s[1..], p - 1);
      assert s[1..][p - 1 + KEY_LENGTH..] == s[p + KEY_LENGTH..];
      assert s[..p] == [s[0]] + s[1..][..p - 1];
    }
  }

  // ---------------------------------------------------------------- structured values

  /** What the logger is given: strings, arrays, objects, and values without text. */
  datatype Value =
    | Text(text: string)
    | List(items: seq<Value>)
    | Object(fields: seq<(string, Value)>)
    | Plain(id: int)

  function RedactValue(v: Value): Value {
    match v
    case Text(t) => Text(Redact(t))
    case List(items) => List(seq(|items|, i requires 0 <= i < |items| => RedactValue(items[i])))
    case Object(fields) =>
      Object(seq(|fields|, i requires 0 <= i < |fields| => (fields[i].0, RedactValue(fields[i].1))))
    case Plain(_) => v
  }

  /** Every string leaf is free of secrets. */
  ghost predicate CleanValue(v: Value) {
    match v
    case Text(t) => Clean(t)
    case List(items) => forall i | 0 <= i < |items| :: CleanValue(items[i])
    case Object(fields) => forall i | 0 <= i < |fields| :: CleanValue(fields[i].1)
    case Plain(_) => true
  }

  /** The same structure with the same keys in the same order, texts redacted and other values as they were. */
  ghost predicate SameShape(v: Value, w: Value) {
    match v
    case Text(t) => w == Text(Redact(t))
    case List(items) =>
      w.List? && |w.items| == |items| && forall i | 0 <= i < |items| :: SameShape(items[i], w.items[i])
    case Object(fields) =>
      w.Object? && |w.fields| == |fields|
      && forall i | 0 <= i < |fields| :: w.fields[i].0 == fields[i].0 && SameShape(fields[i].1, w.fields[i].1)
    case Plain(_) => w == v
  }

  lemma {:induction false} RedactedValueIsClean(v: Value)
    ensures CleanValue(RedactValue(v)) && SameShape(v, RedactValue(v))
  {
    match v
    case Text(t) => RedactedIsClean(t);
    case List(items) => forall i | 0 <= i < |items| { RedactedValueIsClean(items[i]); }
    case Object(fields) => forall i | 0 <= i < |fields| { RedactedValueIsClean(fields[i].1); }
    case Plain(_) =>
  }

  lemma {:induction false} CleanValueIsUnchanged(v: Value)
    requires CleanValue(v)
    ensures RedactValue(v) == v
  {
    match v
    case Text(t) => CleanIsUnchanged(t);
    case List(items) =>
      forall i | 0 <= i < |items| { CleanValueIsUnchanged(items[i]); }
      assert RedactValue(v).items == items;
    case Object(fields) =>
      forall i | 0 <= i < |fields| { CleanValueIsUnchanged(fields[i].1); }
      assert RedactValue(v).fields == fields;
    case Plain(_) =>
  }

  method RedactSecrets(value: Value) returns (r: Value)
    ensures r == RedactValue(value)
    decreases value
  {
    match value
    case Text(t) =>
      return Text(Redact(t));
    case List(items) =>
      var redacted: seq<Value> := [];
      for k := 0 to |items|
        invariant redacted == RedactValue(value).items[..k]
      {
        var item := RedactSecrets(items[k]);
        redacted := redacted + [item];
      }
      return List(redacted);
    case Object(fields) =>
      var redacted: seq<(string, Value)> := [];
      for k := 0 to |fields|
        invariant redacted == RedactValue(value).fields[..k]
      {
        var field := RedactSecrets(fields[k].1);
        redacted := redacted + [(fields[k].0, field)];
      }
      return Object(redacted);
    case Plain(_) =>
      return value;
  }
}

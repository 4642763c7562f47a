/**
  The delivery key, a `:`-separated text that the database uses as the identity of an alert.
  `source_id` is free text and may itself contain `:`.
*/
module DeliveryKey {
  import opened Text

  datatype SourceKind = ProductAvailable | IncidentChange

  const PRODUCT := "product_available"
  const INCIDENT := "incident_change"
  const FIRE := ":fire"

  function Digits(n: nat): string {
    if n < 10 then [DigitOf(n)] else Digits(n / 10) + [DigitOf(n % 10)]
  }

  /** `{}` of a signed integer. */
  function Decimal(n: int): string {
    if n < 0 then "-" + Digits(-n) else Digits(n)
  }

  /** `build_delivery_key` for a rule id and the kind, source id and row id of a source event. */
  function Build(ruleId: int, kind: SourceKind, sourceId: string, eventId: int): string {
    match kind
    case ProductAvailable => Decimal(ruleId) + ":" + (PRODUCT + (":" + (sourceId + FIRE)))
    case IncidentChange => Decimal(ruleId) + ":" + (INCIDENT + (":" + (sourceId + ":" + Decimal(eventId) + FIRE)))
  }

  /** The key of one delivery attempt of an alert. */
  function ForTarget(key: string, contactPointId: int): string {
    key + ":" + Decimal(contactPointId)
  }

  /** Two source events that fire one rule at most once between them. */
  predicate SameTrigger(kind1: SourceKind, sourceId1: string, eventId1: int, kind2: SourceKind, sourceId2: string, eventId2: int) {
    kind1 == kind2 && sourceId1 == sourceId2 && (kind1.IncidentChange? ==> eventId1 == eventId2)
  }

  lemma {:induction false} DigitsArePlain(n: nat)
    ensures Digits(n) != [] && forall i :: 0 <= i < |Digits(n)| ==> '0' <= Digits(n)[i] <= '9'
  {
    if n >= 10 {
      DigitsArePlain(n / 10);
    }
  }

  lemma DecimalHasNoColon(n: int)
    ensures ':' !in Decimal(n)
  {
    DigitsArePlain(if n < 0 then -n else n);
  }

  lemma {:induction false} DigitsInjective(m: nat, n: nat)
    requires Digits(m) == Digits(n)
    ensures m == n
  {
    DigitsArePlain(m / 10);
    DigitsArePlain(n / 10);
    var s, t := Digits(m), Digits(n);
    if m >= 10 && n >= 10 {
      assert Digits(m / 10) == s[..|s| - 1] == t[..|t| - 1] == Digits(n / 10);
      DigitsInjective(m / 10, n / 10);
      assert s[|s| - 1] == DigitOf(m % 10) && t[|t| - 1] == DigitOf(n % 10);
    }
  }

  lemma DecimalSign(n: int)
    ensures Decimal(n) != [] && (n < 0 <==> Decimal(n)[0] == '-')
  {
    DigitsArePlain(if n < 0 then -n else n);
  }

  lemma DecimalInjective(m: int, n: int)
    requires Decimal(m) == Decimal(n)
    ensures m == n
  {
    DecimalSign(m);
    DecimalSign(n);
    if m < 0 {
      assert Digits(-m) == Decimal(m)[1..] == Decimal(n)[1..] == Digits(-n);
      DigitsInjective(-m, -n);
    } else {
      DigitsInjective(m, n);
    }
  }

  /** Digits that give `n`, without a leading zero. */
  ghost predicate Numeral(t: string, n: nat) {
    t != [] && AllDigits(t) && (t[0] == '0' ==> t == "0") && DecimalValue(t) == n
  }

  /** The same with a minus sign in front of a negative number. */
  ghost predicate SignedNumeral(t: string, n: int) {
    if n < 0 then t != [] && t[0] == '-' && Numeral(t[1..], -n) else Numeral(t, n)
  }

  lemma {:induction false} DigitsAreNumeral(n: nat)
    ensures Numeral(Digits(n), n) && (n > 0 ==> Digits(n)[0] != '0')
  {
    if n < 10 {
      assert DecimalValue([]) == 0;
      assert Digits(n)[..0] == [];
    } else {
      var init := Digits(n / 10);
      DigitsAreNumeral(n / 10);
      assert Digits(n)[..|init|] == init;
    }
  }

  lemma {:induction false} LeadingDigit(t: string)
    requires t != [] && AllDigits(t) && t[0] != '0'
    ensures DecimalValue(t) > 0
  {
    if |t| > 1 {
      LeadingDigit(t[..|t| - 1]);
    }
  }

  lemma {:induction false} NumeralIsUnique(t: string, n: nat)
    requires Numeral(t, n)
    ensures t == Digits(n)
  {
    var init, last := t[..|t| - 1], (t[|t| - 1] - '0') as int;
    assert t == init + [t[|t| - 1]] && DigitOf(last) == t[|t| - 1];
    if |t| == 1 {
      assert init == [] && DecimalValue(init) == 0;
      assert n == last && Digits(n) == [DigitOf(last)];
    } else {
      LeadingDigit(t[..|t| - 1]);
      NumeralIsUnique(init, n / 10);
    }
  }

  /** Of every integer there is one numeral, the text that `Decimal` gives. */
  lemma DecimalIsTheNumeral(t: string, n: int)
    ensures SignedNumeral(t, n) <==> t == Decimal(n)
  {
    DigitsAreNumeral(if n < 0 then -n else n);
    if n < 0 {
      assert Decimal(n)[1..] == Digits(-n);
      if SignedNumeral(t, n) {
        NumeralIsUnique(t[1..], -n);
        assert t == "-" + t[1..];
      }
    } else if SignedNumeral(t, n) {
      NumeralIsUnique(t, n);
    }
  }

  lemma Labels()
    ensures ":product_available:" == ":" + PRODUCT + ":" && ":incident_change:" == ":" + INCIDENT + ":"
  {
  }

  /** A product's key in letters, with the numeral of the rule's id. */
  lemma ProductKeyText(ruleId: int, sourceId: string, eventId: int, rule: string)
    requires SignedNumeral(rule, ruleId)
    ensures Build(ruleId, ProductAvailable, sourceId, eventId) == rule + ":product_available:" + sourceId + ":fire"
  {
    DecimalIsTheNumeral(rule, ruleId);
    Labels();
    Reassociate(rule, PRODUCT, sourceId, FIRE, ":product_available:");
  }

  /** An incident's key in letters, with the numerals of the two ids. */
  lemma IncidentKeyText(ruleId: int, sourceId: string, eventId: int, rule: string, event: string)
    requires SignedNumeral(rule, ruleId) && SignedNumeral(event, eventId)
    ensures Build(ruleId, IncidentChange, sourceId, eventId) == rule + ":incident_change:" + (sourceId + ":" + event) + ":fire"
  {
    DecimalIsTheNumeral(rule, ruleId);
    DecimalIsTheNumeral(event, eventId);
    Labels();
    Reassociate(rule, INCIDENT, sourceId + ":" + event, FIRE, ":incident_change:");
  }

  lemma TargetKeyText(key: string, contactPointId: int, target: string)
    requires SignedNumeral(target, contactPointId)
    ensures ForTarget(key, contactPointId) == key + ":" + target
  {
    DecimalIsTheNumeral(target, contactPointId);
  }

  lemma Reassociate(a: string, name: string, b: string, c: string, middle: string)
    requires middle == ":" + name + ":"
    ensures a + ":" + (name + (":" + (b + c))) == a + middle + b + c
  {
    var rest := b + c;
    assert name + (":" + rest) == name + ":" + rest;
    assert a + ":" + (name + ":" + rest) == a + middle + rest;
    assert a + middle + rest == a + middle + b + c;
  }

  /** Texts cut at their first colon. */
  lemma FirstColon(a: string, x: string, b: string, y: string)
    requires a + ":" + x == b + ":" + y && ':' !in a && ':' !in b
    ensures a == b && x == y
  {
    var s := a + ":" + x;
    assert s == b + ":" + y;
    assert s[|a|] == ':' && s[|b|] == ':';
    assert |a| == |b|;
    assert a == s[..|a|] && b == s[..|b|];
    assert x == s[|a| + 1..] && y == s[|b| + 1..];
  }

  /** Texts cut at their last colon. */
  lemma LastColon(x: string, a: string, y: string, b: string)
    requires x + ":" + a == y + ":" + b && ':' !in a && ':' !in b
    ensures x == y && a == b
  {
    var s := x + ":" + a;
    assert s == y + ":" + b;
    assert s[|x|] == ':' && s[|y|] == ':';
    assert |x| == |y|;
    assert x == s[..|x|] && y == s[..|y|];
    assert a == s[|x| + 1..] && b == s[|y| + 1..];
  }

  /** Keys agree exactly for the same rule and the same trigger, whatever text the source ids hold. */
  lemma KeysAgreeExactly(r1: int, k1: SourceKind, s1: string, e1: int, r2: int, k2: SourceKind, s2: string, e2: int)
    ensures Build(r1, k1, s1, e1) == Build(r2, k2, s2, e2) <==> r1 == r2 && SameTrigger(k1, s1, e1, k2, s2, e2)
  {
    if Build(r1, k1, s1, e1) == Build(r2, k2, s2, e2) {
      DecimalHasNoColon(r1);
      DecimalHasNoColon(r2);
      BuildSplits(r1, k1, s1, e1);
      BuildSplits(r2, k2, s2, e2);
      var label1, label2 := Label(k1), Label(k2);
      var rest1, rest2 := label1 + ":" + (Trigger(k1, s1, e1) + FIRE), label2 + ":" + (Trigger(k2, s2, e2) + FIRE);
      FirstColon(Decimal(r1), rest1, Decimal(r2), rest2);
      DecimalInjective(r1, r2);
      FirstColon(label1, Trigger(k1, s1, e1) + FIRE, label2, Trigger(k2, s2, e2) + FIRE);
      assert k1 == k2 by {
        assert label1[0] == (if k1.ProductAvailable? then 'p' else 'i');
        assert label2[0] == (if k2.ProductAvailable? then 'p' else 'i');
      }
      SameSuffix(Trigger(k1, s1, e1), Trigger(k2, s2, e2), FIRE);
      TriggersAgree(k1, s1, e1, s2, e2);
    }
  }

  function Label(kind: SourceKind): (r: string)
    ensures ':' !in r && r != []
  {
    if kind.ProductAvailable? then PRODUCT else INCIDENT
  }

  /** The part of the key that names the trigger. */
  function Trigger(kind: SourceKind, sourceId: string, eventId: int): string {
    if kind.ProductAvailable? then sourceId else sourceId + ":" + Decimal(eventId)
  }

  lemma BuildSplits(r: int, k: SourceKind, s: string, e: int)
    ensures Build(r, k, s, e) == Decimal(r) + ":" + (Label(k) + ":" + (Trigger(k, s, e) + FIRE))
  {
    var name, rest := Label(k), Trigger(k, s, e) + FIRE;
    assert name + ":" + rest == name + (":" + rest);
  }

  lemma SameSuffix(x: string, y: string, suffix: string)
    requires x + suffix == y + suffix
    ensures x == y
  {
    assert x == (x + suffix)[..|x|] && y == (y + suffix)[..|y|];
  }

  lemma TriggersAgree(k: SourceKind, s1: string, e1: int, s2: string, e2: int)
    requires Trigger(k, s1, e1) == Trigger(k, s2, e2)
    ensures SameTrigger(k, s1, e1, k, s2, e2)
  {
    if k.IncidentChange? {
      DecimalHasNoColon(e1);
      DecimalHasNoColon(e2);
      LastColon(s1, Decimal(e1), s2, Decimal(e2));
      DecimalInjective(e1, e2);
    }
  }

  /** Attempts of different alerts or to different contact points have different keys. */
  lemma TargetKeysAgreeExactly(key1: string, c1: int, key2: string, c2: int)
    ensures ForTarget(key1, c1) == ForTarget(key2, c2) <==> key1 == key2 && c1 == c2
  {
    if ForTarget(key1, c1) == ForTarget(key2, c2) {
      DecimalHasNoColon(c1);
      DecimalHasNoColon(c2);
      LastColon(key1, Decimal(c1), key2, Decimal(c2));
      DecimalInjective(c1, c2);
    }
  }
}

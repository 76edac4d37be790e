/**
  The client order id an execution attempt carries. The exchange refuses an id it
  has seen before, so everything said about restarts rests on two different
  attempts never sharing an id.
*/
module ClientOid {
  datatype OrderMode = Maker | Taker

  function Digit(d: nat): (c: char)
    requires d < 10
    ensures c != '-'
  {
    ('0' as int + d) as char
  }

  /** Decimal rendering of an unsigned attempt number. */
  function Decimal(n: nat): string {
    if n < 10 then [Digit(n)] else Decimal(n / 10) + [Digit(n % 10)]
  }

  function ModeName(mode: OrderMode): string {
    match mode
    case Maker => "maker"
    case Taker => "taker"
  }

  function StableClientOid(intentId: string, mode: OrderMode, attempt: nat): string {
    "pdgy-" + intentId + "-" + Decimal(attempt) + "-" + ModeName(mode)
  }

  lemma {:induction false} DecimalInjective(m: nat, n: nat)
    requires Decimal(m) == Decimal(n)
    ensures m == n
  {
    DecimalNonempty(m / 10);
    DecimalNonempty(n / 10);
    if m < 10 || n < 10 {
      assert |Decimal(m)| == |Decimal(n)|;
      assert Decimal(m)[0] == Decimal(n)[0];
    } else {
      var k := |Decimal(m)| - 1;
      assert Decimal(m)[k] == Digit(m % 10) && Decimal(n)[k] == Digit(n % 10);
      assert Decimal(m / 10) == Decimal(m)[..k] == Decimal(n)[..k] == Decimal(n / 10);
      DecimalInjective(m / 10, n / 10);
    }
  }

  lemma {:induction false} DecimalNonempty(n: nat)
    ensures |Decimal(n)| > 0
    ensures forall i :: 0 <= i < |Decimal(n)| ==> Decimal(n)[i] != '-'
  {
    if n >= 10 {
      DecimalNonempty(n / 10);
    }
  }

  /**
    Cutting a string at its last dash is unambiguous when what follows the dash
    holds none.
  */
  lemma LastDashSplit(p: string, d: string, q: string, e: string)
    requires p + "-" + d == q + "-" + e
    requires forall i :: 0 <= i < |d| ==> d[i] != '-'
    requires forall i :: 0 <= i < |e| ==> e[i] != '-'
    ensures p == q && d == e
  {
    var s := p + "-" + d;
    var t := q + "-" + e;
    assert |s| == |t|;
    assert s[|p|] == '-' && t[|q|] == '-';
    assert p == s[..|p|] == t[..|q|] == q;
    assert d == s[|p| + 1..] == t[|q| + 1..] == e;
  }

  /** Two attempts share an id only when they are the same attempt of the same intent. */
  lemma StableClientOidInjective(id: string, mode: OrderMode, attempt: nat,
                                 id': string, mode': OrderMode, attempt': nat)
    requires StableClientOid(id, mode, attempt) == StableClientOid(id', mode', attempt')
    ensures id == id' && mode == mode' && attempt == attempt'
  {
    LastDashSplit("pdgy-" + id + "-" + Decimal(attempt), ModeName(mode),
                  "pdgy-" + id' + "-" + Decimal(attempt'), ModeName(mode'));
    assert ModeName(mode)[0] == ModeName(mode')[0];
    DecimalNonempty(attempt);
    DecimalNonempty(attempt');
    LastDashSplit("pdgy-" + id, Decimal(attempt), "pdgy-" + id', Decimal(attempt'));
    DecimalInjective(attempt, attempt');
    assert id == ("pdgy-" + id)[5..] == ("pdgy-" + id')[5..] == id';
  }

  /** The ids an intent can ever use, whatever the attempt and mode. */
  ghost predicate OfIntent(intentId: string, oid: string) {
    exists mode, attempt :: oid == StableClientOid(intentId, mode, attempt)
  }

  lemma OfOneIntent(id: string, id': string, oid: string)
    requires OfIntent(id, oid) && OfIntent(id', oid)
    ensures id == id'
  {
    var m, a :| oid == StableClientOid(id, m, a);
    var m', a' :| oid == StableClientOid(id', m', a');
    StableClientOidInjective(id, m, a, id', m', a');
  }
}

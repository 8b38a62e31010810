/** The daily food log: `log_food` appends one entry, and `plot_food_log`
    sums five fixed nutrients over the logged entries (foodlogger.py:189-213). */
module FoodLogging {
  import opened Wrappers
  import opened Text
  import opened Sequences
  import opened OrderedMaps
  import opened Decimals

  /** A value held under a key of a logged entry, as JSON decoding yields it:
      a number, a boolean, a string, `null`, or a list or object. */
  datatype Value =
    | Number(x: real)
    | Boolean(b: bool)
    | Str(s: string)
    | Null
    | Composite

  /** A logged entry maps nutrient names (and anything else) to values. */
  type Entry = map<string, Value>

  /** `keys` of `plot_food_log`, in order. */
  const LogKeys: seq<string> := ["Calories", "Protein", "Carbs", "Fat", "Fiber"]

  /** The value after an optional `+` or `-`, when the rest is a decimal
      numeral `float` accepts. */
  function ParseSigned(t: string): (r: Option<real>)
    ensures r.Some? <==>
      var body := if |t| > 0 && (t[0] == '+' || t[0] == '-') then t[1..] else t;
      IsNumeralText(body) && CountDots(body) <= 1 && CountDots(body) < |body|
    ensures r.Some? ==>
      var body := if |t| > 0 && (t[0] == '+' || t[0] == '-') then t[1..] else t;
      && AllDigits(IntPart(body)) && AllDigits(FracPart(body))
      && r.value == (if |t| > 0 && t[0] == '-' then -1.0 else 1.0)
           * (DigitsValue(IntPart(body)) as real + DigitsValue(FracPart(body)) as real / Pow10(|FracPart(body)|) as real)
  {
    var negative := |t| > 0 && t[0] == '-';
    var body := if |t| > 0 && (t[0] == '+' || t[0] == '-') then t[1..] else t;
    if IsNumeralText(body) then
      match ParseDecimal(body)
      case Some(d) =>
        ParseDecimalValue(body);
        Some(if negative then -ToReal(d) else ToReal(d))
      case None => None
    else None
  }

  /** `float(v)`, or nothing where it raises `ValueError` or `TypeError`:
      a number is itself, a boolean is 1 or 0, a string is read after
      stripping its blanks, and `null`, lists and objects are refused. */
  function Coerce(v: Value): Option<real> {
    match v
    case Number(x) => Some(x)
    case Boolean(b) => Some(if b then 1.0 else 0.0)
    case Str(s) => ParseSigned(Strip(s))
    case Null => None
    case Composite => None
  }

  /** `float` reads a string the same with or without its surrounding
      blanks, so `" 4 "` and `"4"` add alike. */
  lemma CoerceIgnoresBlanks(s: string)
    ensures Coerce(Str(s)) == Coerce(Str(Strip(s)))
  {
    StripIdempotent(s);
  }

  /** What one entry adds to the total of `key`: `float(entry.get(key, 0))`,
      or 0 when that raises. */
  function Contribution(entry: Entry, key: string): real {
    var v := if key in entry then entry[key] else Number(0.0);
    match Coerce(v)
    case Some(x) => x
    case None => 0.0
  }

  /** The total of `key` over a log: the sum of the entries' contributions. */
  function Total(log: seq<Entry>, key: string): real {
    if log == [] then 0.0 else Total(log[..|log| - 1], key) + Contribution(log[|log| - 1], key)
  }

  /** Totals add up over consecutive stretches of the log. */
  lemma {:induction false} TotalConcat(a: seq<Entry>, b: seq<Entry>, key: string)
    ensures Total(a + b, key) == Total(a, key) + Total(b, key)
    decreases |b|
  {
    if b != [] {
      var b' := b[..|b| - 1];
      assert (a + b)[..|a + b| - 1] == a + b';
      assert (a + b)[|a + b| - 1] == b[|b| - 1];
      TotalConcat(a, b', key);
    } else {
      assert a + b == a;
    }
  }

  /** An entry none of whose values `float` accepts leaves every total as it
      was. */
  lemma UncoercibleEntry(log: seq<Entry>, entry: Entry, key: string)
    requires forall k :: k in entry ==> Coerce(entry[k]).None?
    ensures Total(log + [entry], key) == Total(log, key)
  {
    assert (log + [entry])[..|log|] == log;
  }

  /** The session's food log (`st.session_state.food_log`). */
  class FoodLog {
    var entries: seq<Entry>

    /** The log created on first use: empty. */
    constructor()
      ensures entries == []
    {
      entries := [];
    }

    /** `log_food`: one entry appended at the end, the earlier ones kept. */
    method LogFood(info: Entry)
      modifies this
      ensures entries == old(entries) + [info]
      ensures |entries| == |old(entries)| + 1 && entries[..|old(entries)|] == old(entries)
      ensures forall k :: Total(entries, k) == Total(old(entries), k) + Contribution(info, k)
    {
      entries := entries + [info];
      assert entries[..|old(entries)|] == old(entries);
    }
  }

  lemma TotalStep(log: seq<Entry>, i: nat)
    requires i < |log|
    ensures forall k :: Total(log[..i + 1], k) == Total(log[..i], k) + Contribution(log[i], k)
  {
    assert log[..i + 1][..i] == log[..i];
  }

  lemma LogKeysDistinct()
    ensures NoDuplicates(LogKeys)
  {
  }

  /** The outcome of `plot_food_log`: nothing logged, or one total per key. */
  datatype Aggregate =
    | NoFoodLogged
    | Totals(totals: OrderedMap<string, real>)

  /** `{key: 0 for key in keys}`. */
  function ZeroTotals(keys: seq<string>): (r: OrderedMap<string, real>)
    requires NoDuplicates(keys)
    ensures r.Valid() && r.keys == keys
    ensures forall k :: k in keys ==> r.entries[k] == 0.0
  {
    OrderedMap(keys, map k | k in keys :: 0.0)
  }

  /** The inner loop of `plot_food_log`: every key's running total grows by
      what `entry` holds for it, and nothing else changes. */
  method AddEntry(totals: OrderedMap<string, real>, keys: seq<string>, entry: Entry) returns (updated: OrderedMap<string, real>)
    requires totals.Valid() && totals.keys == keys
    ensures updated.Valid() && updated.keys == keys
    ensures forall t :: 0 <= t < |keys| ==> updated.entries[keys[t]] == totals.entries[keys[t]] + Contribution(entry, keys[t])
  {
    updated := totals;
    for j := 0 to |keys|
      invariant updated.keys == keys && updated.entries.Keys == totals.entries.Keys
      invariant forall t :: 0 <= t < |keys| ==>
        updated.entries[keys[t]] == totals.entries[keys[t]] + if t < j then Contribution(entry, keys[t]) else 0.0
    {
      var key := keys[j];
      var v := if key in entry then entry[key] else Number(0.0);
      var amount := Coerce(v);
      if amount.Some? {
        updated := updated.Put(key, updated.entries[key] + amount.value);
      }
    }
  }

  /** The outer loop of `plot_food_log`: the entries are added in turn.
      The result has the keys in order, each holding its total over the
      whole log. */
  method SumByKeys(log: seq<Entry>, keys: seq<string>) returns (aggregated: OrderedMap<string, real>)
    requires NoDuplicates(keys)
    ensures aggregated.Valid() && aggregated.keys == keys
    ensures forall t :: 0 <= t < |keys| ==> aggregated.entries[keys[t]] == Total(log, keys[t])
  {
    aggregated := ZeroTotals(keys);
    for i := 0 to |log|
      invariant aggregated.Valid() && aggregated.keys == keys
      invariant forall t :: 0 <= t < |keys| ==> aggregated.entries[keys[t]] == Total(log[..i], keys[t])
    {
      aggregated := AddEntry(aggregated, keys, log[i]);
      TotalStep(log, i);
    }
    assert log[..|log|] == log;
  }

  /** The aggregation of `plot_food_log`: no totals for an empty log;
      otherwise the five keys in order, each holding the sum over the log of
      the values `float` accepts, absent keys and refused values adding 0. */
  method AggregateFoodLog(log: seq<Entry>) returns (r: Aggregate)
    ensures r.NoFoodLogged? <==> log == []
    ensures r.Totals? ==> r.totals.Valid() && r.totals.keys == LogKeys
    ensures r.Totals? ==> forall t :: 0 <= t < |LogKeys| ==> r.totals.entries[LogKeys[t]] == Total(log, LogKeys[t])
  {
    if log == [] {
      return NoFoodLogged;
    }
    LogKeysDistinct();
    var aggregated := SumByKeys(log, LogKeys);
    return Totals(aggregated);
  }

  lemma ParseSignedNat(n: nat)
    ensures ParseSigned(NatToDigits(n)) == Some(n as real)
  {
    var s := NatToDigits(n);
    ParseNatToDigits(n);
    assert s[0] != '+' && s[0] != '-';
  }

  lemma ParseSignedNegatedNat(n: nat)
    ensures ParseSigned("-" + NatToDigits(n)) == Some(-(n as real))
  {
    var s := NatToDigits(n);
    ParseNatToDigits(n);
    var t := "-" + s;
    assert t[0] == '-' && t[1..] == s;
  }

  /** The decimal numeral of a whole number, stored as a string, adds that
      number; with a minus sign in front, its negation. */
  lemma CoerceNatText(n: nat)
    ensures Coerce(Str(NatToDigits(n))) == Some(n as real)
    ensures Coerce(Str("-" + NatToDigits(n))) == Some(-(n as real))
  {
    var s := NatToDigits(n);
    assert !IsSpace(s[0]) && !IsSpace(s[|s| - 1]);
    StripNonBlank(s);
    StripNonBlank("-" + s);
    ParseSignedNat(n);
    ParseSignedNegatedNat(n);
  }
}

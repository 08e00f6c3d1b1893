/**
 * The redaction in the client's logger (`sanitizeContext`) and the entry `log` assembles. The
 * console output, the global error handlers and `PerformanceMarker` are not part of this model.
 */
module Logger {
  import opened Wrappers
  import opened Strings
  import opened JsValues

  /** The terms a key is checked against, as listed. */
  const SensitiveTerms: seq<string> := [
    "balance", "amount", "userId", "user_id", "x-user-id", "transaction", "transactions", "currency", "description"
  ]

  const Redacted: string := "[REDACTED]"

  /** `sensitiveKeys.some(sk => key.toLowerCase().includes(sk.toLowerCase()))`. */
  predicate Sensitive(key: string)
    ensures |key| < 6 ==> !Sensitive(key)
  {
    LowerTermsMatch();
    exists i :: 0 <= i < |SensitiveTerms| && Contains(ToLower(key), ToLower(SensitiveTerms[i]))
  }

  /** `Object.entries` of an object or an array: an array's entries are keyed by their indices. */
  function Entries(v: JsValue): (e: map<string, JsValue>)
    ensures v.Obj? ==> e == v.props
    ensures v.Arr? ==> forall k :: k in e ==> e[k] in v.items
    ensures v.Arr? ==> forall i :: 0 <= i < |v.items| ==> NatToString(i) in e && e[NatToString(i)] == v.items[i]
  {
    match v
    case Obj(props) => props
    case Arr(items) =>
      NatToStringInjective();
      map i | 0 <= i < |items| :: NatToString(i) := items[i]
    case _ => map[]
  }

  lemma NatToStringInjective()
    ensures forall i: nat, j: nat :: NatToString(i) == NatToString(j) ==> i == j
  {
    forall i: nat, j: nat | NatToString(i) == NatToString(j)
      ensures i == j
    {
      ParseNatToString(i);
      ParseNatToString(j);
    }
  }

  /** What `sanitizeContext` returns for an object or array `v`. */
  function Sanitized(v: JsValue): (r: map<string, JsValue>)
    requires IsObject(v)
    ensures r.Keys == Entries(v).Keys
    ensures forall k :: k in r && Sensitive(k) ==> r[k] == Str(Redacted)
    decreases v, 0
  {
    var e := Entries(v);
    map k | k in e :: SanitizeEntry(k, e[k])
  }

  /** The value stored under `key`: redacted, sanitized recursively, or copied. */
  function SanitizeEntry(key: string, value: JsValue): JsValue
    decreases value, 1
  {
    if Sensitive(key) then Str(Redacted)
    else if IsObject(value) then Obj(Sanitized(value))
    else value
  }

  /** `sanitizeContext`: fills a fresh object entry by entry, recursing into nested objects. */
  method SanitizeContext(context: JsValue) returns (sanitized: map<string, JsValue>)
    requires IsObject(context)
    ensures sanitized == Sanitized(context)
    decreases context
  {
    var entries := Entries(context);
    sanitized := map[];
    var pending := entries.Keys;
    while pending != {}
      invariant pending <= entries.Keys
      invariant forall k :: k in sanitized <==> k in entries && k !in pending
      invariant forall k :: k in sanitized ==> sanitized[k] == SanitizeEntry(k, entries[k])
      decreases pending
    {
      var key :| key in pending;
      var value := entries[key];
      var entry;
      if Sensitive(key) {
        entry := Str(Redacted);
      } else if IsObject(value) {
        var inner := SanitizeContext(value);
        entry := Obj(inner);
      } else {
        entry := value;
      }
      sanitized := sanitized[key := entry];
      pending := pending - {key};
    }
    SanitizedByEntries(context, sanitized);
  }

  /** A map with the input's keys holding each entry's sanitized value is the sanitized input. */
  lemma SanitizedByEntries(v: JsValue, m: map<string, JsValue>)
    requires IsObject(v)
    requires m.Keys == Entries(v).Keys
    requires forall k :: k in m ==> m[k] == SanitizeEntry(k, Entries(v)[k])
    ensures Sanitized(v) == m
  {
  }

  /** The result has exactly the input's keys (an array's being its indices). */
  lemma SanitizedKeys(v: JsValue)
    requires IsObject(v)
    ensures Sanitized(v).Keys == Entries(v).Keys
    ensures v.Obj? ==> Sanitized(v).Keys == v.props.Keys
  {
  }

  /**
   * Under a sensitive key the value is replaced whatever it was; under any other key an object
   * is sanitized recursively and anything else is kept as it is.
   */
  lemma EntryOutcomes(key: string, value: JsValue)
    ensures Sensitive(key) ==> SanitizeEntry(key, value) == Str(Redacted)
    ensures !Sensitive(key) && IsObject(value) ==> SanitizeEntry(key, value) == Obj(Sanitized(value))
    ensures !Sensitive(key) && !IsObject(value) ==> SanitizeEntry(key, value) == value
  {
  }

  /** No sensitive key at any depth holds anything but the redaction marker, and no array is left. */
  predicate Clean(v: JsValue)
    decreases v
  {
    match v
    case Obj(props) => forall k :: k in props ==> (Sensitive(k) ==> props[k] == Str(Redacted)) && Clean(props[k])
    case Arr(_) => false
    case _ => true
  }

  /** Whatever the input, the sanitized value is clean. */
  lemma {:induction false} SanitizedIsClean(v: JsValue)
    requires IsObject(v)
    ensures Clean(Obj(Sanitized(v)))
    decreases v, 0
  {
    var e := Entries(v);
    forall k | k in e
      ensures Clean(SanitizeEntry(k, e[k]))
    {
      EntryIsClean(k, e[k]);
    }
  }

  lemma {:induction false} EntryIsClean(key: string, value: JsValue)
    ensures Clean(SanitizeEntry(key, value))
    decreases value, 1
  {
    if !Sensitive(key) && IsObject(value) {
      SanitizedIsClean(value);
    }
  }

  /** Sanitizing an already sanitized context changes nothing. */
  lemma {:induction false} SanitizeIdempotent(v: JsValue)
    requires IsObject(v)
    ensures Sanitized(Obj(Sanitized(v))) == Sanitized(v)
    decreases v, 0
  {
    var e := Entries(v);
    var s := Sanitized(v);
    forall k | k in s
      ensures SanitizeEntry(k, s[k]) == s[k]
    {
      EntryIdempotent(k, e[k]);
    }
  }

  lemma {:induction false} EntryIdempotent(key: string, value: JsValue)
    ensures SanitizeEntry(key, SanitizeEntry(key, value)) == SanitizeEntry(key, value)
    decreases value, 1
  {
    if !Sensitive(key) && IsObject(value) {
      SanitizeIdempotent(value);
    }
  }

  /** The terms lower-cased, as they are compared. */
  const LowerTerms: seq<string> := [
    "balance", "amount", "userid", "user_id", "x-user-id", "transaction", "transactions", "currency", "description"
  ]

  lemma LowerTermsMatch()
    ensures |LowerTerms| == |SensitiveTerms|
    ensures forall i :: 0 <= i < |SensitiveTerms| ==> ToLower(SensitiveTerms[i]) == LowerTerms[i]
  {
    forall i | 0 <= i < |SensitiveTerms|
      ensures ToLower(SensitiveTerms[i]) == LowerTerms[i]
    {
      assert |ToLower(SensitiveTerms[i])| == |LowerTerms[i]|;
    }
  }

  lemma OccurrenceStartsWithTriple(s: string, t: string, p: int)
    requires |t| >= 3 && 0 <= p <= |s| - |t|
    ensures OccursAt(s, t, p) ==> s[p] == t[0] && s[p + 1] == t[1] && s[p + 2] == t[2]
  {
    if OccursAt(s, t, p) {
      var w := s[p..p + |t|];
      assert w[0] == s[p] && w[1] == s[p + 1] && w[2] == s[p + 2];
    }
  }

  /** The characters `a`, `b`, `c` never occur in a row in `s`. */
  predicate NoTriple(s: string, a: char, b: char, c: char) {
    forall p :: 0 <= p < |s| - 2 ==> !(s[p] == a && s[p + 1] == b && s[p + 2] == c)
  }

  /** A key in which (lower-cased) no term's first three characters occur in a row is not sensitive. */
  lemma NotSensitiveByTriples(key: string)
    requires forall i :: 0 <= i < |LowerTerms| ==>
      NoTriple(ToLower(key), LowerTerms[i][0], LowerTerms[i][1], LowerTerms[i][2])
    ensures !Sensitive(key)
  {
    LowerTermsMatch();
    var s := ToLower(key);
    forall i | 0 <= i < |SensitiveTerms|
      ensures !Contains(s, ToLower(SensitiveTerms[i]))
    {
      var t := LowerTerms[i];
      assert NoTriple(s, t[0], t[1], t[2]);
      forall p | 0 <= p <= |s| - |t|
        ensures !OccursAt(s, t, p)
      {
        OccurrenceStartsWithTriple(s, t, p);
      }
    }
  }

  /** Matching ignores case and finds the terms inside longer keys. */
  lemma SensitiveExamples()
    ensures Sensitive("totalAmount")
    ensures Sensitive("X-User-Id")
    ensures Sensitive("userId")
    ensures !Sensitive("endpoint")
  {
    LowerTermsMatch();
    assert ToLower("totalAmount") == "totalamount";
    assert OccursAt(ToLower("totalAmount"), ToLower(SensitiveTerms[1]), 5);
    assert ToLower("X-User-Id") == "x-user-id";
    assert OccursAt(ToLower("X-User-Id"), ToLower(SensitiveTerms[4]), 0);
    assert ToLower("userId") == "userid";
    assert OccursAt(ToLower("userId"), ToLower(SensitiveTerms[2]), 0);
    ExampleKeyNotSensitive("endpoint");
  }

  /** The plain keys of the sanitizing examples contain no sensitive term. */
  lemma ExampleKeyNotSensitive(k: string)
    requires k in {"endpoint", "nested", "page", "items", "0"}
    ensures !Sensitive(k)
  {
    if k == "endpoint" {
      assert ToLower(k) == "endpoint";
    } else if k == "nested" {
      assert ToLower(k) == "nested";
    } else if k == "page" {
      assert ToLower(k) == "page";
    } else if k == "items" {
      assert ToLower(k) == "items";
    } else {
      assert ToLower(k) == "0";
    }
    NotSensitiveByTriples(k);
  }

  /** An object whose entries each sanitize to the expected value sanitizes to the expected object. */
  lemma SanitizedFromEntries(props: map<string, JsValue>, expected: map<string, JsValue>)
    requires props.Keys == expected.Keys
    requires forall k :: k in props ==> SanitizeEntry(k, props[k]) == expected[k]
    ensures Sanitized(Obj(props)) == expected
  {
  }

  /** An array under a plain key becomes an object keyed by index. */
  lemma ArrayExample()
    ensures Sanitized(Arr([Num(7.0)])) == map["0" := Num(7.0)]
  {
    ExampleKeyNotSensitive("0");
    var items := Arr([Num(7.0)]);
    assert NatToString(0) == "0";
    assert Entries(items).Keys == {"0"} by {
      forall k | k in Entries(items)
        ensures k == "0"
      {
        var i :| 0 <= i < 1 && NatToString(i) == k;
      }
    }
  }

  lemma NestedExample()
    ensures Sanitized(Obj(map["userId" := Str("u-1"), "page" := Num(2.0)]))
      == map["userId" := Str(Redacted), "page" := Num(2.0)]
  {
    SensitiveExamples();
    ExampleKeyNotSensitive("page");
    var props := map["userId" := Str("u-1"), "page" := Num(2.0)];
    SanitizedFromEntries(props, map["userId" := Str(Redacted), "page" := Num(2.0)]);
  }

  /**
   * A nested object is sanitized in place and an array becomes an object keyed by index:
   * `{endpoint, totalAmount, nested: {userId, page}, items: [7]}` becomes
   * `{endpoint, totalAmount: '[REDACTED]', nested: {userId: '[REDACTED]', page}, items: {'0': 7}}`.
   */
  lemma SanitizeExample()
    ensures var nested := Obj(map["userId" := Str("u-1"), "page" := Num(2.0)]);
      var context := Obj(map["endpoint" := Str("/rewards"), "totalAmount" := Num(5.0), "nested" := nested,
                             "items" := Arr([Num(7.0)])]);
      Sanitized(context) == map["endpoint" := Str("/rewards"), "totalAmount" := Str(Redacted),
                                "nested" := Obj(map["userId" := Str(Redacted), "page" := Num(2.0)]),
                                "items" := Obj(map["0" := Num(7.0)])]
  {
    var nested := Obj(map["userId" := Str("u-1"), "page" := Num(2.0)]);
    var props := map["endpoint" := Str("/rewards"), "totalAmount" := Num(5.0), "nested" := nested,
                     "items" := Arr([Num(7.0)])];
    var expected := map["endpoint" := Str("/rewards"), "totalAmount" := Str(Redacted),
                        "nested" := Obj(map["userId" := Str(Redacted), "page" := Num(2.0)]),
                        "items" := Obj(map["0" := Num(7.0)])];
    assert props.Keys == expected.Keys == {"endpoint", "totalAmount", "nested", "items"};
    forall k | k in props
      ensures SanitizeEntry(k, props[k]) == expected[k]
    {
      if k == "endpoint" {
        ExampleKeyNotSensitive("endpoint");
      } else if k == "totalAmount" {
        SensitiveExamples();
      } else if k == "nested" {
        ExampleKeyNotSensitive("nested");
        NestedExample();
      } else {
        ExampleKeyNotSensitive("items");
        ArrayExample();
      }
    }
    SanitizedFromEntries(props, expected);
  }

  datatype LogLevel = Info | Warn | Error

  /** The fields every entry starts with. */
  const BaseFields: set<string> := {"timestamp", "level", "feature", "message"}

  function LevelName(level: LogLevel): string {
    match level
    case Info => "info"
    case Warn => "warn"
    case Error => "error"
  }

  /**
   * The entry `log` builds: timestamp, level, feature and message, then the sanitized context
   * spread over them. The clock's ISO string is the parameter `timestamp`.
   */
  function LogEntry(level: LogLevel, message: string, context: Option<JsValue>, timestamp: string)
    : (entry: map<string, JsValue>)
    requires context.Some? ==> IsObject(context.value)
    ensures BaseFields <= entry.Keys
    ensures forall k :: k in entry && Sensitive(k) ==> entry[k] == Str(Redacted)
  {
    BaseKeysNotSensitive();
    var base := map["timestamp" := Str(timestamp), "level" := Str(LevelName(level)),
                    "feature" := Str("rewards"), "message" := Str(message)];
    base + (if context.Some? then Sanitized(context.value) else map[])
  }

  /** Without a context the entry is the four base fields. */
  lemma EntryWithoutContext(level: LogLevel, message: string, timestamp: string)
    ensures LogEntry(level, message, None, timestamp).Keys == {"timestamp", "level", "feature", "message"}
    ensures LogEntry(level, message, None, timestamp)["feature"] == Str("rewards")
    ensures LogEntry(level, message, None, timestamp)["level"] == Str(LevelName(level))
    ensures LogEntry(level, message, None, timestamp)["message"] == Str(message)
  {
  }

  /**
   * The entry holds the base fields and the context's keys; a context key named like a base
   * field replaces it, and every other base field is kept.
   */
  lemma EntryFields(level: LogLevel, message: string, context: JsValue, timestamp: string)
    requires IsObject(context)
    ensures var entry := LogEntry(level, message, Some(context), timestamp);
      && entry.Keys == {"timestamp", "level", "feature", "message"} + Entries(context).Keys
      && (forall k :: k in Entries(context) ==> entry[k] == SanitizeEntry(k, Entries(context)[k]))
      && ("feature" !in Entries(context) ==> entry["feature"] == Str("rewards"))
      && ("level" !in Entries(context) ==> entry["level"] == Str(LevelName(level)))
      && ("message" !in Entries(context) ==> entry["message"] == Str(message))
  {
  }

  /** No sensitive value reaches the entry, whatever the context, and no array is left in it. */
  lemma EntryIsCleanWithContext(level: LogLevel, message: string, context: JsValue, timestamp: string)
    requires IsObject(context)
    ensures Clean(Obj(LogEntry(level, message, Some(context), timestamp)))
  {
    SanitizedIsClean(context);
    var entry := LogEntry(level, message, Some(context), timestamp);
    var s := Sanitized(context);
    forall k | k in entry
      ensures (Sensitive(k) ==> entry[k] == Str(Redacted)) && Clean(entry[k])
    {
      if k !in s {
        BaseKeysNotSensitive();
      }
    }
  }

  /** The four base fields of an entry contain no sensitive term. */
  lemma BaseKeysNotSensitive()
    ensures forall k :: k in BaseFields ==> !Sensitive(k)
  {
    forall k | k in BaseFields
      ensures !Sensitive(k)
    {
      if k == "timestamp" {
        assert ToLower(k) == "timestamp";
      } else if k == "level" {
        assert ToLower(k) == "level";
      } else if k == "feature" {
        assert ToLower(k) == "feature";
      } else {
        assert ToLower(k) == "message";
      }
      NotSensitiveByTriples(k);
    }
  }
}

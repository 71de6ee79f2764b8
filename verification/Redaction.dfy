/** What the audit log keeps of a request: a bounded copy of the payload without its secrets. */
module Redaction {
  import opened Numbers
  import opened Wrappers

  /** A parsed payload; the fields of an object in their order. */
  datatype Json =
    | Null
    | Bool(b: bool)
    | Number(n: real)
    | Str(s: string)
    | Arr(items: seq<Json>)
    | Obj(fields: seq<(string, Json)>)

  const MAX_DEPTH := 4
  const MAX_ITEMS := 50
  const MAX_STRING := 500
  const DETAILS_MAX := 2000
  const ELLIPSIS: char := '\U{2026}'

  // ----- the sensitive keys -----

  function Lower(c: char): char {
    if 'A' <= c <= 'Z' then (c as int + 32) as char else c
  }

  predicate OccursAt(word: string, text: string, at: nat) {
    at + |word| <= |text| && forall i :: 0 <= i < |word| ==> Lower(text[at + i]) == word[i]
  }

  predicate Occurs(word: string, text: string) {
    exists at :: 0 <= at <= |text| && OccursAt(word, text, at)
  }

  /** `/pass|password|token|secret|authorization|otp|code|pin/i` */
  predicate Sensitive(key: string) {
    || Occurs("pass", key) || Occurs("password", key) || Occurs("token", key) || Occurs("secret", key)
    || Occurs("authorization", key) || Occurs("otp", key) || Occurs("code", key) || Occurs("pin", key)
  }

  /** `text` has `word` at `at`, each letter small or capital. */
  predicate Spells(word: string, text: string, at: nat) {
    && at + |word| <= |text|
    && forall i :: 0 <= i < |word| ==> text[at + i] == word[i] || text[at + i] as int == word[i] as int - 32
  }

  predicate HasWord(word: string, key: string) {
    exists at :: 0 <= at <= |key| && Spells(word, key, at)
  }

  predicate SmallLetters(word: string) {
    forall i :: 0 <= i < |word| ==> 'a' <= word[i] <= 'z'
  }

  lemma OccursExactly(word: string, key: string)
    requires SmallLetters(word)
    ensures Occurs(word, key) <==> HasWord(word, key)
  {
    forall at: nat | at <= |key| ensures OccursAt(word, key, at) <==> Spells(word, key, at) {
    }
  }

  lemma PassIsInPassword(key: string)
    requires Occurs("password", key)
    ensures Occurs("pass", key)
  {
    var at :| 0 <= at <= |key| && OccursAt("password", key, at);
    forall i | 0 <= i < 4 ensures Lower(key[at + i]) == "pass"[i] {
      assert Lower(key[at + i]) == "password"[i];
    }
    assert OccursAt("pass", key, at);
  }

  /** A key is sensitive exactly when it has one of seven words in it, in any mixture of small and capital letters. */
  lemma {:induction false} SensitiveExactly(key: string)
    ensures Sensitive(key)
       <==> || HasWord("pass", key) || HasWord("token", key) || HasWord("secret", key)
            || HasWord("authorization", key) || HasWord("otp", key) || HasWord("code", key) || HasWord("pin", key)
  {
    if Occurs("password", key) {
      PassIsInPassword(key);
    }
    OccursExactly("pass", key);
    OccursExactly("token", key);
    OccursExactly("secret", key);
    OccursExactly("authorization", key);
    OccursExactly("otp", key);
    OccursExactly("code", key);
    OccursExactly("pin", key);
  }

  // ----- the transformer -----

  const DEEP := Str("[deep]")
  const REDACTED := Str("[redacted]")

  function Redact(value: Json, depth: nat): Json
    decreases MAX_DEPTH + 1 - depth
  {
    if depth > MAX_DEPTH then DEEP
    else match value
    case Arr(items) =>
      Arr(seq(Min(|items|, MAX_ITEMS), i requires 0 <= i < Min(|items|, MAX_ITEMS) => Redact(items[i], depth + 1)))
    case Obj(fields) =>
      Obj(seq(|fields|, i requires 0 <= i < |fields| =>
        (fields[i].0, if Sensitive(fields[i].0) then REDACTED else Redact(fields[i].1, depth + 1))))
    case Str(s) => if |s| > MAX_STRING then Str(s[..MAX_STRING] + [ELLIPSIS]) else value
    case _ => value
  }

  /** The recursion of the source, with its loops; it ends because the depth grows, whatever the size of the value. */
  method RedactValue(value: Json, depth: nat) returns (r: Json)
    ensures r == Redact(value, depth)
    decreases MAX_DEPTH + 1 - depth
  {
    if depth > MAX_DEPTH {
      return DEEP;
    }
    match value {
      case Arr(items) =>
        var kept := items[..Min(|items|, MAX_ITEMS)];
        var out: seq<Json> := [];
        for i := 0 to |kept|
          invariant |out| == i
          invariant forall j :: 0 <= j < i ==> out[j] == Redact(items[j], depth + 1)
        {
          var item := RedactValue(kept[i], depth + 1);
          out := out + [item];
        }
        return Arr(out);
      case Obj(fields) =>
        var out: seq<(string, Json)> := [];
        for i := 0 to |fields|
          invariant |out| == i
          invariant forall j :: 0 <= j < i ==>
            out[j] == (fields[j].0, if Sensitive(fields[j].0) then REDACTED else Redact(fields[j].1, depth + 1))
        {
          var (k, v) := fields[i];
          if Sensitive(k) {
            out := out + [(k, REDACTED)];
          } else {
            var redacted := RedactValue(v, depth + 1);
            out := out + [(k, redacted)];
          }
        }
        return Obj(out);
      case Str(s) =>
        if |s| > MAX_STRING {
          return Str(s[..MAX_STRING] + [ELLIPSIS]);
        }
        return value;
      case _ =>
        return value;
    }
  }

  // ----- idempotence, through its fixed points -----

  /** A value the log keeps as it is. */
  predicate Clean(value: Json, depth: nat)
    decreases MAX_DEPTH + 1 - depth
  {
    if depth > MAX_DEPTH then value == DEEP
    else match value
    case Arr(items) => |items| <= MAX_ITEMS && forall i :: 0 <= i < |items| ==> Clean(items[i], depth + 1)
    case Obj(fields) =>
      forall i :: 0 <= i < |fields| ==>
        if Sensitive(fields[i].0) then fields[i].1 == REDACTED else Clean(fields[i].1, depth + 1)
    case Str(s) => |s| <= MAX_STRING || (|s| == MAX_STRING + 1 && s[MAX_STRING] == ELLIPSIS)
    case _ => true
  }

  lemma {:induction false} FixedExactly(value: Json, depth: nat)
    ensures Redact(value, depth) == value <==> Clean(value, depth)
    decreases MAX_DEPTH + 1 - depth
  {
    if depth <= MAX_DEPTH {
      match value {
        case Arr(items) =>
          forall i | 0 <= i < |items| ensures Redact(items[i], depth + 1) == items[i] <==> Clean(items[i], depth + 1) {
            FixedExactly(items[i], depth + 1);
          }
          var out := Redact(value, depth).items;
          if out == items {
            forall i | 0 <= i < |items| ensures Clean(items[i], depth + 1) {
              assert out[i] == items[i];
            }
          }
        case Obj(fields) =>
          forall i | 0 <= i < |fields|
            ensures Redact(fields[i].1, depth + 1) == fields[i].1 <==> Clean(fields[i].1, depth + 1)
          {
            FixedExactly(fields[i].1, depth + 1);
          }
          var out := Redact(value, depth).fields;
          if out == fields {
            forall i | 0 <= i < |fields|
              ensures if Sensitive(fields[i].0) then fields[i].1 == REDACTED else Clean(fields[i].1, depth + 1) {
              assert out[i] == fields[i];
            }
          }
        case Str(s) =>
          if |s| == MAX_STRING + 1 && s[MAX_STRING] == ELLIPSIS {
            assert s == s[..MAX_STRING] + [ELLIPSIS];
          }
        case _ =>
      }
    }
  }

  lemma {:induction false} RedactedIsClean(value: Json, depth: nat)
    ensures Clean(Redact(value, depth), depth)
    decreases MAX_DEPTH + 1 - depth
  {
    if depth <= MAX_DEPTH {
      match value {
        case Arr(items) =>
          forall i | 0 <= i < Min(|items|, MAX_ITEMS) ensures Clean(Redact(items[i], depth + 1), depth + 1) {
            RedactedIsClean(items[i], depth + 1);
          }
        case Obj(fields) =>
          forall i | 0 <= i < |fields| ensures Clean(Redact(fields[i].1, depth + 1), depth + 1) {
            RedactedIsClean(fields[i].1, depth + 1);
          }
        case _ =>
      }
    }
  }

  lemma {:induction false} Idempotent(value: Json, depth: nat)
    ensures Redact(Redact(value, depth), depth) == Redact(value, depth)
  {
    RedactedIsClean(value, depth);
    FixedExactly(Redact(value, depth), depth);
  }

  // ----- secrets -----

  /** Nothing but the marker stands under a sensitive key, at any level. */
  predicate NoSecrets(value: Json) {
    match value
    case Arr(items) => forall i :: 0 <= i < |items| ==> NoSecrets(items[i])
    case Obj(fields) =>
      forall i :: 0 <= i < |fields| ==>
        (Sensitive(fields[i].0) ==> fields[i].1 == Str("[redacted]")) && NoSecrets(fields[i].1)
    case _ => true
  }

  lemma {:induction false} NoSecretSurvives(value: Json, depth: nat)
    ensures NoSecrets(Redact(value, depth))
    decreases MAX_DEPTH + 1 - depth
  {
    if depth <= MAX_DEPTH {
      match value {
        case Arr(items) =>
          forall i | 0 <= i < Min(|items|, MAX_ITEMS) ensures NoSecrets(Redact(items[i], depth + 1)) {
            NoSecretSurvives(items[i], depth + 1);
          }
        case Obj(fields) =>
          forall i | 0 <= i < |fields| ensures NoSecrets(Redact(fields[i].1, depth + 1)) {
            NoSecretSurvives(fields[i].1, depth + 1);
          }
        case _ =>
      }
    }
  }

  /** The same value but for what stands under sensitive keys. */
  predicate SameButSecrets(v: Json, w: Json) {
    match v
    case Arr(items) =>
      w.Arr? && |w.items| == |items| && forall i :: 0 <= i < |items| ==> SameButSecrets(items[i], w.items[i])
    case Obj(fields) =>
      w.Obj? && |w.fields| == |fields|
      && forall i :: 0 <= i < |fields| ==>
           fields[i].0 == w.fields[i].0 && (Sensitive(fields[i].0) || SameButSecrets(fields[i].1, w.fields[i].1))
    case _ => v == w
  }

  /** The copy does not depend on the secrets: two payloads that differ only there leave the same trace. */
  lemma {:induction false} SecretsDoNotShow(v: Json, w: Json, depth: nat)
    requires SameButSecrets(v, w)
    ensures Redact(v, depth) == Redact(w, depth)
    decreases MAX_DEPTH + 1 - depth
  {
    if depth <= MAX_DEPTH {
      match v {
        case Arr(items) =>
          forall i | 0 <= i < Min(|items|, MAX_ITEMS)
            ensures Redact(items[i], depth + 1) == Redact(w.items[i], depth + 1)
          {
            SecretsDoNotShow(items[i], w.items[i], depth + 1);
          }
          assert Redact(v, depth).items == Redact(w, depth).items;
        case Obj(fields) =>
          forall i | 0 <= i < |fields| && !Sensitive(fields[i].0)
            ensures Redact(fields[i].1, depth + 1) == Redact(w.fields[i].1, depth + 1) {
            SecretsDoNotShow(fields[i].1, w.fields[i].1, depth + 1);
          }
          assert Redact(v, depth).fields == Redact(w, depth).fields;
        case _ =>
      }
    }
  }

  // ----- what is kept -----

  /** A way into a value: an element of an array, or a field of an object with its key. */
  datatype Way = Item(i: nat) | Field(i: nat, key: string)

  function Enter(value: Json, way: Way): Option<Json> {
    match way
    case Item(i) => if value.Arr? && i < |value.items| then Some(value.items[i]) else None
    case Field(i, key) =>
      if value.Obj? && i < |value.fields| && value.fields[i].0 == key then Some(value.fields[i].1) else None
  }

  function At(value: Json, path: seq<Way>): Option<Json> {
    if path == [] then Some(value)
    else match Enter(value, path[0]) case None => None case Some(inner) => At(inner, path[1..])
  }

  /** Nothing on the path is cut off or secret. */
  predicate Open(path: seq<Way>) {
    forall k :: 0 <= k < |path| ==>
      match path[k] case Item(i) => i < 50 case Field(_, key) => !Sensitive(key)
  }

  lemma {:induction false} PathIsFollowed(value: Json, depth: nat, path: seq<Way>)
    requires depth + |path| <= 5 && Open(path)
    ensures At(Redact(value, depth), path)
         == match At(value, path) case None => None case Some(inner) => Some(Redact(inner, depth + |path|))
  {
    if path != [] {
      match Enter(value, path[0]) {
        case None =>
        case Some(inner) => PathIsFollowed(inner, depth + 1, path[1..]);
      }
    }
  }

  /** Up to four levels down every leaf that no sensitive key stands over is kept under its own keys, a string up to its
      500th character; a level further there is only a marker. */
  lemma {:induction false} LeavesAreKept(value: Json, path: seq<Way>)
    requires |path| <= 5 && Open(path) && At(value, path).Some?
    ensures
      var leaf, kept := At(value, path).value, At(Redact(value, 0), path);
      if |path| == 5 then kept == Some(Str("[deep]"))
      else match leaf
        case Arr(items) => kept.Some? && kept.value.Arr? && |kept.value.items| == Min(|items|, 50)
        case Obj(fields) => kept.Some? && kept.value.Obj? && |kept.value.fields| == |fields|
        case Str(s) => kept == Some(if |s| <= 500 then leaf else Str(s[..500] + [ELLIPSIS]))
        case _ => kept == Some(leaf)
  {
    PathIsFollowed(value, 0, path);
  }

  // ----- bounds -----

  /** At most `levels` containers inside each other, short arrays, short strings. */
  predicate Bounded(value: Json, levels: nat) {
    match value
    case Arr(items) =>
      levels > 0 && |items| <= 50 && forall i :: 0 <= i < |items| ==> Bounded(items[i], levels - 1)
    case Obj(fields) => levels > 0 && forall i :: 0 <= i < |fields| ==> Bounded(fields[i].1, levels - 1)
    case Str(s) => |s| <= 501
    case _ => true
  }

  lemma {:induction false} RedactedIsBounded(value: Json, depth: nat)
    ensures Bounded(Redact(value, depth), if depth > 4 then 0 else 5 - depth)
    decreases MAX_DEPTH + 1 - depth
  {
    if depth <= MAX_DEPTH {
      match value {
        case Arr(items) =>
          forall i | 0 <= i < Min(|items|, MAX_ITEMS) ensures Bounded(Redact(items[i], depth + 1), MAX_DEPTH - depth) {
            RedactedIsBounded(items[i], depth + 1);
          }
        case Obj(fields) =>
          forall i | 0 <= i < |fields| ensures Bounded(Redact(fields[i].1, depth + 1), MAX_DEPTH - depth) {
            RedactedIsBounded(fields[i].1, depth + 1);
          }
        case _ =>
      }
    }
  }

  // ----- the stored details -----

  datatype Details = Nothing | Whole(value: Json) | Preview(text: string)

  /** `render` is JSON.stringify; the payload is the query of a GET and the body of anything else. */
  function BuildDetails(render: Json -> string, isGet: bool, query: Json, body: Json): Details {
    var payload := if isGet then query else body;
    if !payload.Arr? && !payload.Obj? then Nothing
    else if (payload.Arr? && payload.items == []) || (payload.Obj? && payload.fields == []) then Nothing
    else
      var sanitized := Redact(payload, 0);
      if |render(sanitized)| > DETAILS_MAX then Preview(render(sanitized)[..DETAILS_MAX]) else Whole(sanitized)
  }

  /** A payload worth storing. */
  predicate Stored(payload: Json) {
    (payload.Arr? && payload.items != []) || (payload.Obj? && payload.fields != [])
  }

  lemma SameButSecretsIsStoredAlike(v: Json, w: Json)
    requires SameButSecrets(v, w)
    ensures Stored(v) == Stored(w)
  {
  }

  /** The details built from the payload, whole or as a preview, do not depend on its secrets, whatever the
      serialiser. */
  lemma {:induction false} DetailsHideSecrets(render: Json -> string, isGet: bool, query: Json, body: Json,
      query': Json, body': Json)
    requires SameButSecrets(query, query') && SameButSecrets(body, body')
    ensures BuildDetails(render, isGet, query, body) == BuildDetails(render, isGet, query', body')
  {
    var payload, payload' := if isGet then query else body, if isGet then query' else body';
    SameButSecretsIsStoredAlike(payload, payload');
    SecretsDoNotShow(payload, payload', 0);
    assert BuildDetails(render, isGet, query, body).Nothing? <==> !Stored(payload);
    assert BuildDetails(render, isGet, query', body').Nothing? <==> !Stored(payload');
  }

  /** What is stored comes from the payload selected, without its secrets: whole up to 2000 characters, bounded in
      nesting, arrays and strings; beyond that, exactly the first 2000. */
  lemma {:induction false} DetailsAreBounded(render: Json -> string, isGet: bool, query: Json, body: Json)
    ensures
      var payload := if isGet then query else body;
      var kept := Redact(payload, 0);
      && NoSecrets(kept)
      && match BuildDetails(render, isGet, query, body)
         case Nothing => !Stored(payload)
         case Whole(v) => Stored(payload) && v == kept && Bounded(v, 5) && |render(v)| <= 2000
         case Preview(text) =>
           Stored(payload) && |text| == 2000 < |render(kept)| && render(kept) == text + render(kept)[2000..]
  {
    NoSecretSurvives(if isGet then query else body, 0);
    RedactedIsBounded(if isGet then query else body, 0);
  }
}

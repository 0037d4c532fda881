/** Topic routing of libs/shared/events.py: the recursive matcher, routing keys
    and the in-memory bus that consumes by binding key. */
module Events {
  import opened Wrappers
  import opened Text

  // ---- The matcher --------------------------------------------------------

  /** _topic_parts_match, branch by branch. */
  predicate PartsMatch(binding: seq<string>, routing: seq<string>)
    decreases |binding|
  {
    if binding == [] then routing == []
    else if binding[0] == "#" then
      if |binding| == 1 then true
      else exists i :: 0 <= i <= |routing| && PartsMatch(binding[1..], routing[i..])
    else if routing == [] then false
    else if binding[0] == "*" || binding[0] == routing[0] then
      PartsMatch(binding[1..], routing[1..])
    else false
  }

  // ---- The declarative meaning (section 3.1.3.3 of AMQP 0-9-1) ------------

  function Flatten(chunks: seq<seq<string>>): seq<string> {
    if chunks == [] then [] else chunks[0] + Flatten(chunks[1..])
  }

  /** `#` stands for any number of words, `*` for one, anything else for itself. */
  predicate Stands(pattern: string, words: seq<string>) {
    pattern == "#" || (|words| == 1 && (pattern == "*" || words[0] == pattern))
  }

  ghost predicate Covers(binding: seq<string>, chunks: seq<seq<string>>, routing: seq<string>) {
    && |chunks| == |binding|
    && Flatten(chunks) == routing
    && forall i :: 0 <= i < |binding| ==> Stands(binding[i], chunks[i])
  }

  /** The routing words can be cut into one chunk per pattern word. */
  ghost predicate AmqpMatches(binding: seq<string>, routing: seq<string>) {
    exists chunks :: Covers(binding, chunks, routing)
  }

  lemma {:induction false} CoverFromMatch(binding: seq<string>, routing: seq<string>)
    returns (chunks: seq<seq<string>>)
    requires PartsMatch(binding, routing)
    ensures Covers(binding, chunks, routing)
    decreases |binding|
  {
    if binding == [] {
      chunks := [];
    } else {
      var taken;
      if binding[0] != "#" {
        taken := 1;
      } else if |binding| == 1 {
        taken := |routing|;
        assert routing[taken..] == [];
      } else {
        taken :| 0 <= taken <= |routing| && PartsMatch(binding[1..], routing[taken..]);
      }
      var rest := CoverFromMatch(binding[1..], routing[taken..]);
      chunks := [routing[..taken]] + rest;
      assert chunks[1..] == rest;
      assert routing[..taken] + routing[taken..] == routing;
    }
  }

  lemma {:induction false} MatchFromCover(
    binding: seq<string>, chunks: seq<seq<string>>, routing: seq<string>)
    requires Covers(binding, chunks, routing)
    ensures PartsMatch(binding, routing)
    decreases |binding|
  {
    if binding != [] {
      var taken := |chunks[0]|;
      assert routing[taken..] == Flatten(chunks[1..]);
      MatchFromCover(binding[1..], chunks[1..], routing[taken..]);
    }
  }

  /** The recursive matcher decides the declarative meaning for all word sequences. */
  lemma MatcherIsAmqp(binding: seq<string>, routing: seq<string>)
    ensures PartsMatch(binding, routing) <==> AmqpMatches(binding, routing)
  {
    if PartsMatch(binding, routing) {
      var chunks := CoverFromMatch(binding, routing);
    }
    if AmqpMatches(binding, routing) {
      var chunks :| Covers(binding, chunks, routing);
      MatchFromCover(binding, chunks, routing);
    }
  }

  // ---- Keys ---------------------------------------------------------------

  /** _normalize_binding_key and, with the same checks, _normalize_token. */
  function NormalizeToken(raw: string): (r: Option<string>)
    ensures r.Some? ==> r.value != [] && !HasSpace(r.value)
  {
    var s := Strip(raw);
    if s == [] || HasSpace(s) then None else Some(s)
  }

  /** _normalize_routing_segment. */
  function NormalizeSegment(raw: string): (r: Option<string>)
    ensures r.Some? ==> r.value != [] && !HasSpace(r.value) && '.' !in r.value
  {
    var t := NormalizeToken(raw);
    if t.Some? && '.' in t.value then None else t
  }

  predicate EventTypeWord(w: string) {
    && w != []
    && IsLower(w[0])
    && forall i :: 1 <= i < |w| ==> IsLower(w[i]) || IsDigit(w[i]) || w[i] == '_'
  }

  /** _EVENT_TYPE_PATTERN: two or more lower-case words joined by dots. */
  predicate MatchesEventType(s: string) {
    var words := Split(s, '.');
    |words| >= 2 && forall i :: 0 <= i < |words| ==> EventTypeWord(words[i])
  }

  function NormalizeEventType(raw: string): (r: Option<string>)
    ensures r.Some? ==> MatchesEventType(r.value)
  {
    if MatchesEventType(Strip(raw)) then Some(Strip(raw)) else None
  }

  function Key(tenant: string, tail: string): string {
    "tenant" + "." + tenant + "." + tail
  }

  /** event_routing_key; None stands for the ValueError. */
  function RoutingKey(tenant: string, eventType: string): Option<string> {
    var t := NormalizeSegment(tenant);
    var e := NormalizeEventType(eventType);
    if t.None? || e.None? then None else Some(Key(t.value, e.value))
  }

  /** topic_matches; None stands for the ValueError of either key. */
  function TopicMatches(binding: string, routing: string): Option<bool> {
    var b := NormalizeToken(binding);
    var r := NormalizeToken(routing);
    if b.None? || r.None? then None
    else Some(PartsMatch(Split(b.value, '.'), Split(r.value, '.')))
  }

  function TenantBinding(tenant: string): string {
    Key(tenant, "#")
  }

  predicate Wildcard(word: string) {
    word == "*" || word == "#"
  }

  lemma {:induction false} SpacelessWords(s: string, sep: char)
    requires !IsSpace(sep)
    requires forall i :: 0 <= i < |Split(s, sep)| ==> !HasSpace(Split(s, sep)[i])
    ensures !HasSpace(s)
  {
    if s != [] {
      var rest, words := Split(s[1..], sep), Split(s, sep);
      forall i | 0 <= i < |rest| ensures !HasSpace(rest[i]) {
        assert !HasSpace(words[if s[0] == sep then i + 1 else i]);
        if s[0] != sep && i == 0 {
          assert words[0][1..] == rest[0];
        }
      }
      SpacelessWords(s[1..], sep);
      assert s[0] != sep ==> words[0][0] == s[0];
      assert s == [s[0]] + s[1..];
    }
  }

  lemma EventTypeHasNoSpace(s: string)
    requires MatchesEventType(s)
    ensures !HasSpace(s)
  {
    SpacelessWords(s, '.');
  }

  lemma StripsToItself(s: string)
    requires s != [] && !HasSpace(s)
    ensures NormalizeToken(s) == Some(s)
  {
    StripKeeps(s);
  }

  lemma NoSpaceConcat(a: string, b: string)
    requires !HasSpace(a) && !HasSpace(b)
    ensures !HasSpace(a + b)
  {
    var s := a + b;
    forall i | 0 <= i < |s| ensures !IsSpace(s[i]) {
      if i < |a| {
        assert s[i] == a[i];
      } else {
        assert s[i] == b[i - |a|];
      }
    }
  }

  lemma FixedWordsHaveNoSpace()
    ensures !HasSpace("tenant") && !HasSpace(".") && !HasSpace("#") && '.' !in "tenant"
  {
  }

  lemma KeyHasNoSpace(tenant: string, tail: string)
    requires !HasSpace(tenant) && !HasSpace(tail)
    ensures !HasSpace(Key(tenant, tail))
  {
    FixedWordsHaveNoSpace();
    NoSpaceConcat("tenant", ".");
    NoSpaceConcat("tenant" + ".", tenant);
    NoSpaceConcat("tenant" + "." + tenant, ".");
    NoSpaceConcat("tenant" + "." + tenant + ".", tail);
  }

  /** The words of a routing key: the fixed head, the tenant, the event type. */
  lemma KeyWords(tenant: string, tail: string)
    requires '.' !in tenant
    ensures Split(Key(tenant, tail), '.') == ["tenant"] + ([tenant] + Split(tail, '.'))
  {
    FixedWordsHaveNoSpace();
    var rest := tenant + ['.'] + tail;
    assert Key(tenant, tail) == "tenant" + ['.'] + rest;
    SplitAfter("tenant", rest, '.');
    SplitAfter(tenant, tail, '.');
  }

  lemma KeyIsNormal(tenant: string, tail: string)
    requires !HasSpace(tenant) && !HasSpace(tail)
    ensures NormalizeToken(Key(tenant, tail)) == Some(Key(tenant, tail))
  {
    KeyHasNoSpace(tenant, tail);
    StripsToItself(Key(tenant, tail));
  }

  lemma TenantPatternMatches(bound: string, tenant: string, words: seq<string>)
    ensures PartsMatch(["tenant"] + ([bound] + ["#"]), ["tenant"] + ([tenant] + words))
        <==> Wildcard(bound) || bound == tenant
  {
    var b, r := [bound] + ["#"], [tenant] + words;
    assert (["tenant"] + b)[1..] == b && (["tenant"] + r)[1..] == r;
    assert PartsMatch(["tenant"] + b, ["tenant"] + r) == PartsMatch(b, r);
    assert b[1..] == ["#"] && r[1..] == words;
    assert PartsMatch(["#"], words) && PartsMatch(["#"], r[0..]);
  }

  /** Which routing keys the binding `tenant.T.#` selects, for every tenant T. */
  lemma TenantBindingMeaning(bound: string, tenant: string, eventType: string)
    requires NormalizeSegment(bound) == Some(bound)
    requires RoutingKey(tenant, eventType).Some?
    ensures TopicMatches(TenantBinding(bound), RoutingKey(tenant, eventType).value)
         == Some(Wildcard(bound) || NormalizeSegment(tenant) == Some(bound))
  {
    var t, e := NormalizeSegment(tenant).value, NormalizeEventType(eventType).value;
    EventTypeHasNoSpace(e);
    FixedWordsHaveNoSpace();
    KeyIsNormal(t, e);
    KeyIsNormal(bound, "#");
    KeyWords(t, e);
    KeyWords(bound, "#");
    SplitClean("#", '.');
    TenantPatternMatches(bound, t, Split(e, '.'));
  }

  /** `tenant.T.#` selects exactly tenant T's events if and only if T is not itself
      a wildcard word; a tenant named `*` or `#` would select everybody's. */
  lemma TenantBindingExact(bound: string)
    requires NormalizeSegment(bound) == Some(bound)
    ensures (forall tenant, eventType :: RoutingKey(tenant, eventType).Some? ==>
               TopicMatches(TenantBinding(bound), RoutingKey(tenant, eventType).value)
               == Some(NormalizeSegment(tenant) == Some(bound)))
            <==> !Wildcard(bound)
  {
    if Wildcard(bound) {
      var other, kind := "t", "a.b";
      assert !HasSpace(other);
      StripsToItself(other);
      assert !HasSpace(kind);
      StripsToItself(kind);
      SplitAfter("a", "b", '.');
      SplitClean("b", '.');
      assert kind == "a" + ['.'] + "b";
      assert RoutingKey(other, kind).Some?;
      TenantBindingMeaning(bound, other, kind);
    } else {
      forall tenant, eventType | RoutingKey(tenant, eventType).Some?
        ensures TopicMatches(TenantBinding(bound), RoutingKey(tenant, eventType).value)
             == Some(NormalizeSegment(tenant) == Some(bound))
      {
        TenantBindingMeaning(bound, tenant, eventType);
      }
    }
  }

  // ---- What keys are accepted, and what they say ---------------------------

  /** A key is accepted exactly if, without the spaces around it, it is not empty and has
      no space; a segment also has no dot. It stands for just what is left. */
  lemma NormalizeExactly(raw: string)
    ensures NormalizeToken(raw)
         == if !AllSpace(raw) && (forall c :: c in Strip(raw) ==> !IsSpace(c)) then Some(Strip(raw)) else None
    ensures NormalizeSegment(raw)
         == if !AllSpace(raw) && (forall c :: c in Strip(raw) ==> !IsSpace(c) && c != '.')
            then Some(Strip(raw)) else None
  {
    StripEmptyExactly(raw);
    var s := Strip(raw);
    if HasSpace(s) {
      var i :| 0 <= i < |s| && IsSpace(s[i]);
      assert s[i] in s;
    }
  }

  /** A character may stand here in an event type: a lower-case letter at the start and
      after a dot, then also digits, underscores and, but at the end, dots. */
  predicate TypeCharAt(s: string, i: nat)
    requires i < |s|
  {
    if i == 0 || s[i - 1] == '.' then IsLower(s[i])
    else IsLower(s[i]) || IsDigit(s[i]) || s[i] == '_' || (s[i] == '.' && i + 1 < |s|)
  }

  predicate TypeChars(s: string) {
    forall i :: 0 <= i < |s| ==> TypeCharAt(s, i)
  }

  /** A word without a dot, character by character. */
  lemma WordByChars(w: string)
    requires '.' !in w && w != []
    ensures EventTypeWord(w) <==> TypeChars(w)
  {
    forall i | 0 <= i < |w| ensures w[i] != '.' {
      assert w[i] in w;
    }
    if TypeChars(w) {
      assert TypeCharAt(w, 0);
      forall i | 1 <= i < |w| ensures IsLower(w[i]) || IsDigit(w[i]) || w[i] == '_' {
        assert TypeCharAt(w, i);
      }
    }
  }

  /** The characters of a string are those before its first dot, the dot, and those after. */
  lemma CharsAround(head: string, tail: string)
    requires '.' !in head
    ensures TypeChars(head + ['.'] + tail) <==> head != [] && tail != [] && TypeChars(head) && TypeChars(tail)
  {
    var s, dot := head + ['.'] + tail, |head|;
    forall i | 0 <= i < dot ensures TypeCharAt(head, i) == TypeCharAt(s, i) {
      assert head[i] == s[i] && head[i] in head;
      assert i > 0 ==> head[i - 1] == s[i - 1];
    }
    forall i | 0 <= i < |tail| ensures TypeCharAt(tail, i) == TypeCharAt(s, dot + 1 + i) {
      assert tail[i] == s[dot + 1 + i];
      assert i > 0 ==> tail[i - 1] == s[dot + i];
    }
    if TypeChars(s) {
      assert TypeCharAt(s, dot);
    }
    if head != [] && tail != [] && TypeChars(head) && TypeChars(tail) {
      forall i | 0 <= i < |s| ensures TypeCharAt(s, i) {
        if i < dot {
          assert TypeCharAt(head, i);
        } else if i > dot {
          assert TypeCharAt(tail, i - dot - 1);
        } else {
          assert head[dot - 1] in head && s[dot - 1] == head[dot - 1];
        }
      }
    }
  }

  lemma {:induction false} FirstDot(s: string) returns (head: string, tail: string)
    requires '.' in s
    ensures s == head + ['.'] + tail && '.' !in head
  {
    if s[0] == '.' {
      head, tail := [], s[1..];
    } else {
      head, tail := FirstDot(s[1..]);
      head := [s[0]] + head;
      assert s == [s[0]] + s[1..];
    }
  }

  predicate AllWords(words: seq<string>) {
    forall i :: 0 <= i < |words| ==> EventTypeWord(words[i])
  }

  lemma {:induction false} WordsByChars(s: string)
    ensures AllWords(Split(s, '.')) <==> s != [] && TypeChars(s)
    ensures |Split(s, '.')| >= 2 <==> '.' in s
    decreases |s|
  {
    if '.' in s {
      var head, tail := FirstDot(s);
      SplitAfter(head, tail, '.');
      WordsByChars(tail);
      CharsAround(head, tail);
      if head != [] {
        WordByChars(head);
      }
      var words, rest := Split(s, '.'), Split(tail, '.');
      assert words == [head] + rest;
      assert forall i :: 0 <= i < |rest| ==> words[i + 1] == rest[i];
      assert AllWords(words) <==> EventTypeWord(head) && AllWords(rest) by {
        if AllWords(words) {
          forall i | 0 <= i < |rest| ensures EventTypeWord(rest[i]) {
            assert EventTypeWord(words[i + 1]);
          }
          assert EventTypeWord(words[0]);
        }
      }
    } else {
      SplitClean(s, '.');
      assert Split(s, '.') == [s] && Split(s, '.')[0] == s;
      if s != [] {
        WordByChars(s);
      }
    }
  }

  /** Which event types are accepted, character by character. */
  lemma EventTypeExactly(raw: string)
    ensures NormalizeEventType(raw)
         == if && Strip(raw) != [] && '.' in Strip(raw)
               && TypeChars(Strip(raw))
            then Some(Strip(raw)) else None
  {
    WordsByChars(Strip(raw));
  }

  /** A routing key says the tenant and the event type, word by word. */
  lemma RoutingKeyWords(tenant: string, eventType: string)
    ensures RoutingKey(tenant, eventType).Some?
        <==> NormalizeSegment(tenant).Some? && NormalizeEventType(eventType).Some?
    ensures RoutingKey(tenant, eventType).Some? ==>
              Split(RoutingKey(tenant, eventType).value, '.')
              == ["tenant"] + ([Strip(tenant)] + Split(Strip(eventType), '.'))
  {
    if RoutingKey(tenant, eventType).Some? {
      NormalizeExactly(tenant);
      KeyWords(Strip(tenant), Strip(eventType));
    }
  }

  /** So two events share a routing key exactly if they agree on tenant and type. */
  lemma RoutingKeyInjective(tenant: string, eventType: string, tenant': string, eventType': string)
    requires RoutingKey(tenant, eventType).Some? && RoutingKey(tenant', eventType').Some?
    ensures RoutingKey(tenant, eventType) == RoutingKey(tenant', eventType')
        <==> Strip(tenant) == Strip(tenant') && Strip(eventType) == Strip(eventType')
  {
    RoutingKeyWords(tenant, eventType);
    RoutingKeyWords(tenant', eventType');
    var a, b := Split(RoutingKey(tenant, eventType).value, '.'), Split(RoutingKey(tenant', eventType').value, '.');
    if RoutingKey(tenant, eventType) == RoutingKey(tenant', eventType') {
      assert a[1] == Strip(tenant) && b[1] == Strip(tenant');
      assert a[2..] == Split(Strip(eventType), '.') && b[2..] == Split(Strip(eventType'), '.');
      SplitInjective(Strip(eventType), Strip(eventType'), '.');
    }
  }

  /** topic_matches on whole keys: an error for an unaccepted key, else the AMQP meaning of
      their words. */
  lemma TopicMatchesExactly(binding: string, routing: string)
    ensures TopicMatches(binding, routing).None?
        <==> NormalizeToken(binding).None? || NormalizeToken(routing).None?
    ensures TopicMatches(binding, routing).Some? ==>
              (TopicMatches(binding, routing) == Some(true)
               <==> AmqpMatches(Split(Strip(binding), '.'), Split(Strip(routing), '.')))
  {
    NormalizeExactly(binding);
    NormalizeExactly(routing);
    MatcherIsAmqp(Split(Strip(binding), '.'), Split(Strip(routing), '.'));
  }

  // ---- The in-memory bus --------------------------------------------------

  datatype Envelope = Envelope(eventId: string, tenantId: string, eventType: string)
  datatype PublishedEvent = PublishedEvent(envelope: Envelope, routingKey: string)
  datatype BusError = InvalidLimit | InvalidBinding | InvalidEnvelope

  predicate Selects(binding: string, m: PublishedEvent) {
    TopicMatches(binding, m.routingKey) == Some(true)
  }

  function Wanted(binding: string): PublishedEvent -> bool {
    m => Selects(binding, m)
  }

  function Envelopes(ms: seq<PublishedEvent>): seq<Envelope> {
    if ms == [] then [] else Envelopes(ms[..|ms| - 1]) + [ms[|ms| - 1].envelope]
  }

  lemma {:induction false} EnvelopesAt(ms: seq<PublishedEvent>)
    ensures |Envelopes(ms)| == |ms| && forall i :: 0 <= i < |ms| ==> Envelopes(ms)[i] == ms[i].envelope
  {
    if ms != [] {
      EnvelopesAt(ms[..|ms| - 1]);
    }
  }

  /** The elements that satisfy p (or, with keep = false, do not), in order. */
  function Filter<T>(ms: seq<T>, p: T -> bool, keep: bool): seq<T> {
    if ms == [] then []
    else
      var init, last := Filter(ms[..|ms| - 1], p, keep), ms[|ms| - 1];
      if p(last) == keep then init + [last] else init
  }

  function AtMost(n: nat, limit: Option<int>): nat
    requires limit.Some? ==> limit.value > 0
  {
    if limit.Some? && limit.value < n then limit.value else n
  }

  /** Filtering keeps the order: it goes piece by piece, and keeps of one element exactly
      one that satisfies p. */
  lemma {:induction false} FilterPieces<T>(a: seq<T>, b: seq<T>, p: T -> bool, keep: bool)
    ensures Filter(a + b, p, keep) == Filter(a, p, keep) + Filter(b, p, keep)
    ensures |b| == 1 ==> Filter(b, p, keep) == if p(b[0]) == keep then b else []
  {
    if b == [] {
      assert a + b == a;
    } else {
      var init, last := b[..|b| - 1], b[|b| - 1];
      FilterPieces(a, init, p, keep);
      FilterSnoc(a + init, last, p, keep);
      FilterSnoc(init, last, p, keep);
      assert b == init + [last] && a + b == (a + init) + [last];
    }
  }

  /** Where a consuming pass stands after the messages `seen`. */
  ghost predicate Partitioned<T>(
    seen: seq<T>, p: T -> bool, limit: Option<int>, taken: seq<T>, remaining: seq<T>)
    requires limit.Some? ==> limit.value > 0
  {
    && taken + Filter(remaining, p, true) == Filter(seen, p, true)
    && |taken| == AtMost(|Filter(seen, p, true)|, limit)
    && Filter(remaining, p, false) == Filter(seen, p, false)
    && multiset(remaining) + multiset(taken) == multiset(seen)
  }

  lemma FilterSnoc<T>(ms: seq<T>, m: T, p: T -> bool, keep: bool)
    ensures Filter(ms + [m], p, keep) == Filter(ms, p, keep) + (if p(m) == keep then [m] else [])
  {
    assert (ms + [m])[..|ms|] == ms;
  }

  lemma TakeStep<T>(
    seen: seq<T>, m: T, p: T -> bool, limit: Option<int>, taken: seq<T>, remaining: seq<T>)
    requires limit.Some? ==> limit.value > 0
    requires Partitioned(seen, p, limit, taken, remaining)
    requires (limit.None? || |taken| < limit.value) && p(m)
    ensures Partitioned(seen + [m], p, limit, taken + [m], remaining)
  {
    FilterSnoc(seen, m, p, true);
    FilterSnoc(seen, m, p, false);
    assert Filter(remaining, p, true) == [];
    assert taken == Filter(seen, p, true);
  }

  lemma ConcatAssociates<T>(a: seq<T>, b: seq<T>, c: seq<T>)
    ensures a + (b + c) == (a + b) + c
  {
  }

  lemma KeepSelectedStep<T>(
    seen: seq<T>, m: T, p: T -> bool, limit: Option<int>, taken: seq<T>, remaining: seq<T>)
    requires limit.Some? ==> limit.value > 0
    requires Partitioned(seen, p, limit, taken, remaining)
    requires limit.Some? && |taken| >= limit.value && p(m)
    ensures Partitioned(seen + [m], p, limit, taken, remaining + [m])
  {
    FilterSnoc(seen, m, p, true);
    FilterSnoc(remaining, m, p, true);
    ConcatAssociates(taken, Filter(remaining, p, true), [m]);
    FilterSnoc(seen, m, p, false);
    FilterSnoc(remaining, m, p, false);
  }

  lemma KeepOtherStep<T>(
    seen: seq<T>, m: T, p: T -> bool, limit: Option<int>, taken: seq<T>, remaining: seq<T>)
    requires limit.Some? ==> limit.value > 0
    requires Partitioned(seen, p, limit, taken, remaining) && !p(m)
    ensures Partitioned(seen + [m], p, limit, taken, remaining + [m])
  {
    FilterSnoc(seen, m, p, true);
    FilterSnoc(remaining, m, p, true);
    FilterSnoc(seen, m, p, false);
    FilterSnoc(remaining, m, p, false);
  }

  /** What one pass over the messages hands out and what it leaves. */
  function Sifted<T>(ms: seq<T>, p: T -> bool, limit: Option<int>): (seq<T>, seq<T>) {
    if ms == [] then ([], [])
    else
      var (taken, remaining) := Sifted(ms[..|ms| - 1], p, limit);
      var m := ms[|ms| - 1];
      if (limit.None? || |taken| < limit.value) && p(m) then (taken + [m], remaining)
      else (taken, remaining + [m])
  }

  lemma SiftOneMore<T>(ms: seq<T>, i: nat, p: T -> bool, limit: Option<int>)
    requires i < |ms|
    ensures var (taken, remaining) := Sifted(ms[..i], p, limit);
            Sifted(ms[..i + 1], p, limit)
            == if (limit.None? || |taken| < limit.value) && p(ms[i]) then (taken + [ms[i]], remaining)
               else (taken, remaining + [ms[i]])
  {
    assert ms[..i + 1][..i] == ms[..i];
  }

  lemma {:induction false} SiftedPartitions<T>(ms: seq<T>, p: T -> bool, limit: Option<int>)
    requires limit.Some? ==> limit.value > 0
    ensures Partitioned(ms, p, limit, Sifted(ms, p, limit).0, Sifted(ms, p, limit).1)
  {
    if ms != [] {
      var init, m := ms[..|ms| - 1], ms[|ms| - 1];
      var (taken, remaining) := Sifted(init, p, limit);
      SiftedPartitions(init, p, limit);
      assert ms == init + [m];
      if (limit.None? || |taken| < limit.value) && p(m) {
        TakeStep(init, m, p, limit, taken, remaining);
      } else if p(m) {
        KeepSelectedStep(init, m, p, limit, taken, remaining);
      } else {
        KeepOtherStep(init, m, p, limit, taken, remaining);
      }
    }
  }

  /** A finished pass has taken the first selected messages and left the rest in order. */
  lemma PartitionDone<T>(all: seq<T>, p: T -> bool, limit: Option<int>, taken: seq<T>, remaining: seq<T>)
    requires limit.Some? ==> limit.value > 0
    requires Partitioned(all, p, limit, taken, remaining)
    ensures var chosen := Filter(all, p, true);
            var n := AtMost(|chosen|, limit);
            && taken == chosen[..n] && Filter(remaining, p, true) == chosen[n..]
            && Filter(remaining, p, false) == Filter(all, p, false)
            && multiset(remaining) + multiset(chosen[..n]) == multiset(all)
  {
    assert Filter(all, p, true)[..|taken|] == taken;
  }

  predicate Routable(m: PublishedEvent) {
    NormalizeToken(m.routingKey).Some?
  }

  predicate AllRoutable(ms: seq<PublishedEvent>) {
    forall i :: 0 <= i < |ms| ==> Routable(ms[i])
  }

  predicate BadBinding(binding: string) {
    NormalizeToken(binding).None?
  }

  /** The first `limit` selected messages were handed out in order; what stays keeps its
      order, and nothing is lost or duplicated. */
  ghost predicate Delivered(
    before: seq<PublishedEvent>, binding: string, limit: Option<int>,
    consumed: seq<Envelope>, after: seq<PublishedEvent>)
    requires limit.Some? ==> limit.value > 0
  {
    var wanted := Wanted(binding);
    var chosen := Filter(before, wanted, true);
    var n := AtMost(|chosen|, limit);
    && consumed == Envelopes(chosen[..n])
    && Filter(after, wanted, true) == chosen[n..]
    && Filter(after, wanted, false) == Filter(before, wanted, false)
    && multiset(after) + multiset(chosen[..n]) == multiset(before)
  }

  lemma SiftedDelivers(all: seq<PublishedEvent>, binding: string, limit: Option<int>)
    requires limit.Some? ==> limit.value > 0
    ensures var (taken, remaining) := Sifted(all, Wanted(binding), limit);
            Delivered(all, binding, limit, Envelopes(taken), remaining)
  {
    var (taken, remaining) := Sifted(all, Wanted(binding), limit);
    SiftedPartitions(all, Wanted(binding), limit);
    PartitionDone(all, Wanted(binding), limit, taken, remaining);
  }

  lemma {:induction false} SiftedStaysRoutable(all: seq<PublishedEvent>, p: PublishedEvent -> bool, limit: Option<int>)
    requires AllRoutable(all)
    ensures AllRoutable(Sifted(all, p, limit).1)
  {
    if all != [] {
      SiftedStaysRoutable(all[..|all| - 1], p, limit);
    }
  }

  /** The matcher rejects a binding key for every stored message or for none. */
  lemma RejectionIsUniform(binding: string, m: PublishedEvent)
    requires Routable(m)
    ensures TopicMatches(binding, m.routingKey).None? <==> BadBinding(binding)
    ensures TopicMatches(binding, m.routingKey) == Some(true) <==> Wanted(binding)(m)
  {
  }

  class InMemoryEventBus {
    var messages: seq<PublishedEvent>

    /** Every stored key passed event_routing_key, so the matcher never rejects it. */
    ghost predicate Valid()
      reads this
    {
      AllRoutable(messages)
    }

    constructor ()
      ensures Valid() && messages == []
    {
      messages := [];
    }

    method Publish(envelope: Envelope) returns (r: Result<PublishedEvent, BusError>)
      requires Valid()
      modifies this
      ensures Valid()
      ensures r.Ok? <==> RoutingKey(envelope.tenantId, envelope.eventType).Some?
      ensures r.Ok? ==> messages == old(messages) + [r.value] && r.value.envelope == envelope
                        && Some(r.value.routingKey) == RoutingKey(envelope.tenantId, envelope.eventType)
      ensures r.Err? ==> messages == old(messages)
    {
      var key := RoutingKey(envelope.tenantId, envelope.eventType);
      if key.None? {
        return Err(InvalidEnvelope);
      }
      EventTypeHasNoSpace(NormalizeEventType(envelope.eventType).value);
      KeyIsNormal(NormalizeSegment(envelope.tenantId).value, NormalizeEventType(envelope.eventType).value);
      var message := PublishedEvent(envelope, key.value);
      messages := messages + [message];
      return Ok(message);
    }

    /** A stable partition: the first `limit` selected messages leave in order, what
        stays keeps its order, and nothing is lost or duplicated. */
    method Consume(binding: string, limit: Option<int>) returns (r: Result<seq<Envelope>, BusError>)
      requires Valid()
      modifies this
      ensures Valid()
      ensures r.Err? ==> messages == old(messages)
      ensures r.Err? <==>
              (limit.Some? && limit.value <= 0) || (BadBinding(binding) && old(messages) != [])
      ensures r.Ok? ==> Delivered(old(messages), binding, limit, r.value, messages)
    {
      if limit.Some? && limit.value <= 0 {
        return Err(InvalidLimit);
      }
      var consumed: seq<Envelope> := [];
      var remaining: seq<PublishedEvent> := [];
      ghost var taken: seq<PublishedEvent> := [];
      ghost var wanted := Wanted(binding);
      var i := 0;
      while i < |messages|
        invariant 0 <= i <= |messages| && messages == old(messages)
        invariant i > 0 ==> !BadBinding(binding)
        invariant Sifted(messages[..i], wanted, limit) == (taken, remaining)
        invariant consumed == Envelopes(taken) && |consumed| == |taken|
      {
        var message := messages[i];
        SiftOneMore(messages, i, wanted, limit);
        RejectionIsUniform(binding, message);
        var selected := false;
        if limit.None? || |consumed| < limit.value {
          var matched := TopicMatches(binding, message.routingKey);
          if matched.None? {
            return Err(InvalidBinding);
          }
          selected := matched.value;
        }
        if selected {
          assert (taken + [message])[..|taken|] == taken;
          taken := taken + [message];
          consumed := consumed + [message.envelope];
        } else {
          remaining := remaining + [message];
        }
        i := i + 1;
      }
      assert messages[..i] == messages;
      SiftedDelivers(messages, binding, limit);
      SiftedStaysRoutable(messages, wanted, limit);
      messages := remaining;
      return Ok(consumed);
    }
  }
}

/** strtok_r as the driver has it: tokens are cut out of the buffer in place. */
module Tokeniser {

  import opened Sequences

  const NUL: char := '\0'

  // ----- What the tokens of a text are -----

  /** From `begin` up to `end`. */
  datatype Span = Span(begin: nat, end: nat)

  /** The first place at or after `p` whose being a delimiter is `wanted`, or the end. */
  function Seek(s: seq<char>, delimiter: string, p: nat, wanted: bool): (q: nat)
    requires p <= |s|
    ensures p <= q <= |s|
    ensures forall k | p <= k < q :: (s[k] in delimiter) != wanted
    ensures q < |s| ==> (s[q] in delimiter) == wanted
    decreases |s| - p
  {
    if p == |s| || (s[p] in delimiter) == wanted then p else Seek(s, delimiter, p + 1, wanted)
  }

  lemma {:induction false} SeekIs(s: seq<char>, delimiter: string, p: nat, wanted: bool, q: nat)
    requires p <= q <= |s|
    requires forall k | p <= k < q :: (s[k] in delimiter) != wanted
    requires q < |s| ==> (s[q] in delimiter) == wanted
    ensures Seek(s, delimiter, p, wanted) == q
    decreases q - p
  {
    if p < q {
      SeekIs(s, delimiter, p + 1, wanted, q);
    }
  }

  function Spans(s: seq<char>, delimiter: string, p: nat): seq<Span>
    requires p <= |s|
    decreases |s| - p
  {
    var a := Seek(s, delimiter, p, false);
    if a == |s| then []
    else
      var b := Seek(s, delimiter, a, true);
      [Span(a, b)] + Spans(s, delimiter, b)
  }

  /** A maximal stretch without delimiters. */
  predicate IsToken(s: seq<char>, delimiter: string, t: Span) {
    && t.begin < t.end <= |s|
    && (forall k | t.begin <= k < t.end :: s[k] !in delimiter)
    && (t.begin == 0 || s[t.begin - 1] in delimiter)
    && (t.end == |s| || s[t.end] in delimiter)
  }

  predicate Boundary(s: seq<char>, delimiter: string, p: nat) {
    p <= |s| && (p == 0 || p == |s| || s[p - 1] in delimiter || s[p] in delimiter)
  }

  /** They are exactly the maximal stretches, from left to right. */
  lemma {:induction false} SpansAreTheTokens(s: seq<char>, delimiter: string, p: nat)
    requires Boundary(s, delimiter, p)
    ensures forall t :: t in Spans(s, delimiter, p) <==> IsToken(s, delimiter, t) && p <= t.begin
    ensures forall j, k | 0 <= j < k < |Spans(s, delimiter, p)| ::
              Spans(s, delimiter, p)[j].end < Spans(s, delimiter, p)[k].begin
    decreases |s| - p
  {
    var a := Seek(s, delimiter, p, false);
    if a < |s| {
      var b := Seek(s, delimiter, a, true);
      var rest := Spans(s, delimiter, b);
      SpansAreTheTokens(s, delimiter, b);
      assert IsToken(s, delimiter, Span(a, b));
      forall t | t in rest
        ensures b < t.begin
      {
        assert IsToken(s, delimiter, t) && b <= t.begin;
      }
    }
    forall t | IsToken(s, delimiter, t) && p <= t.begin
      ensures t in Spans(s, delimiter, p)
    {
      FirstToken(s, delimiter, p, t);
    }
  }

  lemma FirstToken(s: seq<char>, delimiter: string, p: nat, t: Span)
    requires Boundary(s, delimiter, p) && IsToken(s, delimiter, t) && p <= t.begin
    ensures var a := Seek(s, delimiter, p, false);
            a < |s| && (t == Span(a, Seek(s, delimiter, a, true)) || Seek(s, delimiter, a, true) <= t.begin)
  {
    var a := Seek(s, delimiter, p, false);
    SeekStops(s, delimiter, p, false, t.begin);
    if a < t.begin {
      SeekStops(s, delimiter, a, true, t.begin - 1);
    } else {
      SeekIs(s, delimiter, a, true, t.end);
    }
  }

  lemma {:induction false} SeekStops(s: seq<char>, delimiter: string, p: nat, wanted: bool, k: nat)
    requires p <= k < |s| && (s[k] in delimiter) == wanted
    ensures Seek(s, delimiter, p, wanted) <= k
    decreases k - p
  {
    if p < k {
      SeekStops(s, delimiter, p + 1, wanted, k);
    }
  }

  /** Only what lies at or after `p` matters. */
  lemma {:induction false} SeekLocal(s: seq<char>, t: seq<char>, delimiter: string, p: nat, wanted: bool)
    requires p <= |s| == |t| && forall k | p <= k < |s| :: s[k] == t[k]
    ensures Seek(s, delimiter, p, wanted) == Seek(t, delimiter, p, wanted)
    decreases |s| - p
  {
    if p < |s| {
      SeekLocal(s, t, delimiter, p + 1, wanted);
    }
  }

  lemma {:induction false} SpansLocal(s: seq<char>, t: seq<char>, delimiter: string, p: nat)
    requires p <= |s| == |t| && forall k | p <= k < |s| :: s[k] == t[k]
    ensures Spans(s, delimiter, p) == Spans(t, delimiter, p)
    decreases |s| - p
  {
    SeekLocal(s, t, delimiter, p, false);
    var a := Seek(s, delimiter, p, false);
    if a < |s| {
      SeekLocal(s, t, delimiter, a, true);
      SpansLocal(s, t, delimiter, Seek(s, delimiter, a, true));
    }
  }

  lemma SpansPastDelimiter(s: seq<char>, delimiter: string, p: nat)
    requires p < |s| && s[p] in delimiter
    ensures Spans(s, delimiter, p) == Spans(s, delimiter, p + 1)
  {
  }

  // ----- strtok_r -----

  /** The text from `p` on ends at `end`. */
  predicate Text(b: seq<char>, p: nat, end: nat) {
    p <= end < |b| && b[end] == NUL && forall k | p <= k < end :: b[k] != NUL
  }

  /** __strtok_r and, on wider characters, __wcstok_r. `end` is where the text ended before the
      first call. Only the delimiter behind the token is overwritten. */
  method StrTok(buffer: array<char>, start: Option<nat>, delimiter: string, context: Option<nat>, ghost end: nat)
    returns (token: Option<nat>, context': Option<nat>)
    requires NUL !in delimiter
    requires var from := if start.Some? then start else context; from.Some? ==> Text(buffer[..], from.value, end)
    modifies buffer
    ensures start.None? && context.None? ==> token.None? && context'.None? && buffer[..] == old(buffer[..])
    ensures var from := if start.Some? then start else context;
            from.Some? ==> Cut(old(buffer[..]), buffer[..], delimiter, from.value, end, token, context')
  {
    context' := if start.Some? then start else context;
    if context'.None? {
      return None, None;
    }
    ghost var p, was := context'.value, buffer[..end];
    var t := context'.value;
    while buffer[t] != NUL && buffer[t] in delimiter
      invariant p <= t <= end && forall k | p <= k < t :: was[k] in delimiter
      decreases end - t
    {
      t := t + 1;
    }
    SeekIs(was, delimiter, p, false, t);
    if buffer[t] == NUL {
      return None, context';
    }
    var e := t + 1;
    while buffer[e] != NUL && buffer[e] !in delimiter
      invariant t < e <= end && forall k | t <= k < e :: was[k] !in delimiter
      decreases end - e
    {
      e := e + 1;
    }
    SeekIs(was, delimiter, t, true, e);
    CutHere(buffer[..], delimiter, p, t, e, end);
    if buffer[e] != NUL {
      buffer[e] := NUL;
      e := e + 1;
    }
    token, context' := Some(t), Some(e);
  }

  lemma CutHere(b: seq<char>, delimiter: string, p: nat, t: nat, e: nat, end: nat)
    requires Text(b, p, end) && t == Seek(b[..end], delimiter, p, false) < end
    requires e == Seek(b[..end], delimiter, t, true)
    requires t < e
    ensures Cut(b, b[e := NUL], delimiter, p, end, Some(t), Some(if b[e] != NUL then e + 1 else e))
  {
    var was, now, next := b[..end], b[e := NUL], if b[e] != NUL then e + 1 else e;
    assert Spans(was, delimiter, p) == [Span(t, e)] + Spans(was, delimiter, e);
    if b[e] != NUL {
      assert e < end;
      SpansPastDelimiter(was, delimiter, e);
    }
    SpansLocal(was, now[..end], delimiter, next);
  }

  /** One call's work between two states of the buffer. */
  ghost predicate Cut(was: seq<char>, now: seq<char>, delimiter: string, p: nat, end: nat,
                      token: Option<nat>, context: Option<nat>)
    requires p <= end < |was|
  {
    var spans := Spans(was[..end], delimiter, p);
    if spans == [] then token.None? && context == Some(p) && now == was
    else
      var t := spans[0];
      && t.end <= end && now == was[t.end := NUL]
      && token == Some(t.begin) && context.Some? && t.end <= context.value && Text(now, context.value, end)
      && Spans(now[..end], delimiter, context.value) == spans[1..]
  }

  /** Once it has returned NULL it goes on returning NULL, and leaves the buffer alone. */
  method NullForever(buffer: array<char>, delimiter: string, context: Option<nat>, ghost end: nat)
    returns (again: Option<nat>, context'': Option<nat>)
    requires NUL !in delimiter && (context.Some? ==> Text(buffer[..], context.value, end))
    requires context.Some? ==> Spans(buffer[..end], delimiter, context.value) == []
    modifies buffer
    ensures again.None? && context'' == context && buffer[..] == old(buffer[..])
  {
    again, context'' := StrTok(buffer, None, delimiter, context, end);
  }

  // ----- The loops that use it -----

  /** The C string at `p`. */
  ghost predicate Holds(b: seq<char>, p: nat, s: string) {
    p + |s| < |b| && b[p..p + |s|] == s && b[p + |s|] == NUL && NUL !in s
  }

  /** The tokens found so far can all still be read from the buffer. */
  ghost predicate AllHeld(b: seq<char>, text: seq<char>, spans: seq<Span>, found: seq<nat>) {
    |found| <= |spans| && forall j | 0 <= j < |found| :: TokenHeld(b, text, spans[j], found[j])
  }

  ghost predicate TokenHeld(b: seq<char>, text: seq<char>, t: Span, p: nat) {
    p == t.begin && Holds(b, p, Between(text, t))
  }

  function Between(text: seq<char>, t: Span): string {
    if t.begin <= t.end <= |text| then text[t.begin..t.end] else ""
  }

  /** Where such a loop stands. */
  ghost predicate Cutting(b: seq<char>, text: seq<char>, delimiter: string, found: seq<nat>, context: Option<nat>) {
    var spans, end := Spans(text, delimiter, 0), |text|;
    && context.Some? && Text(b, context.value, end)
    && AllHeld(b, text, spans, found)
    && Spans(b[..end], delimiter, context.value) == spans[|found|..]
    && (forall k | context.value <= k < end :: b[k] == text[k])
  }

  /** Cutting one token more disturbs none of those before it. */
  lemma CutStep(was: seq<char>, now: seq<char>, text: seq<char>, delimiter: string, found: seq<nat>,
                context: Option<nat>, token: Option<nat>, context': Option<nat>)
    requires Cutting(was, text, delimiter, found, context) && NUL !in text
    requires Cut(was, now, delimiter, context.value, |text|, token, context')
    ensures token.Some? <==> |found| < |Spans(text, delimiter, 0)|
    ensures Cutting(now, text, delimiter, if token.Some? then found + [token.value] else found, context')
  {
    var spans := Spans(text, delimiter, 0);
    if token.Some? {
      assert spans[|found|..][1..] == spans[|found| + 1..];
      CutKeepsHeld(was, now, text, delimiter, found, context.value);
    }
  }

  lemma CutKeepsHeld(was: seq<char>, now: seq<char>, text: seq<char>, delimiter: string, found: seq<nat>, p: nat)
    requires Cutting(was, text, delimiter, found, Some(p)) && NUL !in text
    requires var spans := Spans(text, delimiter, 0);
             |found| < |spans| && spans[|found|].end <= |text| && now == was[spans[|found|].end := NUL]
    ensures AllHeld(now, text, Spans(text, delimiter, 0), found + [Spans(text, delimiter, 0)[|found|].begin])
  {
    var spans, n := Spans(text, delimiter, 0), |found|;
    SpansAreTheTokens(text, delimiter, 0);
    assert spans[n] == spans[n..][0] && spans[n] in spans;
    SpansBegin(was[..|text|], delimiter, p);
    NewTokenHeld(was, now, text, spans[n], p);
    forall j | 0 <= j < n
      ensures TokenHeld(now, text, spans[j], found[j])
    {
      assert spans[j] in spans && TokenHeld(was, text, spans[j], found[j]);
      OldTokenHeld(was, now, text, spans[j], spans[n].end);
    }
  }

  lemma LastHeld(b: seq<char>, text: seq<char>, delimiter: string, found: seq<nat>, p: nat, context: Option<nat>)
    requires Cutting(b, text, delimiter, found + [p], context)
    ensures var spans := Spans(text, delimiter, 0); |found| < |spans| && TokenHeld(b, text, spans[|found|], p)
  {
    assert (found + [p])[|found|] == p;
  }

  lemma NewTokenHeld(was: seq<char>, now: seq<char>, text: seq<char>, t: Span, p: nat)
    requires p <= t.begin <= t.end <= |text| < |was| && now == was[t.end := NUL] && NUL !in text
    requires forall k | p <= k < |text| :: was[k] == text[k]
    ensures TokenHeld(now, text, t, t.begin)
  {
    assert now[t.begin..t.end] == text[t.begin..t.end];
  }

  lemma OldTokenHeld(was: seq<char>, now: seq<char>, text: seq<char>, t: Span, e: nat)
    requires TokenHeld(was, text, t, t.begin) && t.begin <= t.end < e < |was| && t.end <= |text| && now == was[e := NUL]
    ensures TokenHeld(now, text, t, t.begin)
  {
    assert now[t.begin..t.end] == was[t.begin..t.end];
  }

  lemma SpansBegin(s: seq<char>, delimiter: string, p: nat)
    requires p <= |s| && Spans(s, delimiter, p) != []
    ensures p <= Spans(s, delimiter, p)[0].begin
  {
  }

  lemma CuttingStarts(b: seq<char>, delimiter: string, end: nat)
    requires Text(b, 0, end)
    ensures Cutting(b, b[..end], delimiter, [], Some(0)) && NUL !in b[..end]
  {
  }

  /** One call seen from such a loop: `start` on the first one, NULL on the later ones. */
  method NextToken(buffer: array<char>, start: Option<nat>, delimiter: string, context: Option<nat>,
                   ghost text: seq<char>, ghost found: seq<nat>)
    returns (token: Option<nat>, context': Option<nat>)
    requires NUL !in delimiter && NUL !in text
    requires Cutting(buffer[..], text, delimiter, found, if start.Some? then start else context)
    modifies buffer
    ensures token.Some? <==> |found| < |Spans(text, delimiter, 0)|
    ensures Cutting(buffer[..], text, delimiter, if token.Some? then found + [token.value] else found, context')
  {
    ghost var was := buffer[..];
    token, context' := StrTok(buffer, start, delimiter, context, |text|);
    CutStep(was, buffer[..], text, delimiter, found, if start.Some? then start else context, token, context');
  }

  /** Calling until NULL: yields the tokens of the original text, all of them, in order, though the
      delimiters between them are gone. */
  method Tokens(buffer: array<char>, delimiter: string, ghost end: nat) returns (found: seq<nat>)
    requires NUL !in delimiter && Text(buffer[..], 0, end)
    modifies buffer
    ensures var text := old(buffer[..end]); var spans := Spans(text, delimiter, 0);
            |found| == |spans| && AllHeld(buffer[..], text, spans, found)
  {
    ghost var text := buffer[..end];
    CuttingStarts(buffer[..], delimiter, end);
    found := [];
    var token, context := NextToken(buffer, Some(0), delimiter, None, text, []);
    while token.Some?
      invariant Cutting(buffer[..], text, delimiter, if token.Some? then found + [token.value] else found, context)
      invariant token.None? ==> |found| == |Spans(text, delimiter, 0)|
      decreases |Spans(text, delimiter, 0)| - |found|
    {
      found := found + [token.value];
      token, context := NextToken(buffer, None, delimiter, context, text, found);
    }
  }

  /** strncmp over the whole prefix. */
  method StartsWith(buffer: array<char>, p: nat, prefix: string, ghost s: string) returns (r: bool)
    requires Holds(buffer[..], p, s) && NUL !in prefix
    ensures r <==> prefix <= s
  {
    for i := 0 to |prefix|
      invariant i <= |s| && prefix[..i] == s[..i]
    {
      assert i < |s| ==> buffer[p + i] == buffer[..][p..p + |s|][i] == s[i];
      if prefix[i] != buffer[p + i] {
        return false;
      }
      assert i < |s| ==> prefix[..i + 1] == s[..i + 1];
    }
    r := true;
  }

  /** None of the first `n` tokens begins with the prefix. */
  predicate Unmatched(text: seq<char>, spans: seq<Span>, prefix: string, n: nat) {
    n <= |spans| && forall j | 0 <= j < n :: !Begins(text, spans[j], prefix)
  }

  predicate Begins(text: seq<char>, t: Span, prefix: string) {
    prefix <= Between(text, t)
  }

  lemma UnmatchedNext(text: seq<char>, spans: seq<Span>, prefix: string, n: nat)
    requires Unmatched(text, spans, prefix, n) && n < |spans| && !Begins(text, spans[n], prefix)
    ensures Unmatched(text, spans, prefix, n + 1)
  {
  }

  /** The loop of RegistryQuerySystemStartOption finds the first option, of the text as it was,
      that begins with the prefix. */
  method FindOption(options: array<char>, prefix: string, ghost end: nat)
    returns (option: Option<nat>, ghost index: nat)
    requires NUL !in prefix && Text(options[..], 0, end)
    modifies options
    ensures var text := old(options[..end]); var spans := Spans(text, " ", 0);
            && Unmatched(text, spans, prefix, index)
            && option.Some? == (index < |spans|)
            && (option.Some? ==>
                  Begins(text, spans[index], prefix) && TokenHeld(options[..], text, spans[index], option.value))
  {
    ghost var text := options[..end];
    ghost var spans, found: seq<nat> := Spans(text, " ", 0), [];
    CuttingStarts(options[..], " ", end);
    var context;
    option, context := NextToken(options, Some(0), " ", None, text, found);
    while option.Some?
      invariant Cutting(options[..], text, " ", if option.Some? then found + [option.value] else found, context)
      invariant option.None? ==> |found| == |spans|
      invariant Unmatched(text, spans, prefix, |found|)
      decreases |spans| - |found|
    {
      LastHeld(options[..], text, " ", found, option.value, context);
      var matches := StartsWith(options, option.value, prefix, Between(text, spans[|found|]));
      if matches {
        return option, |found|;
      }
      UnmatchedNext(text, spans, prefix, |found|);
      found := found + [option.value];
      option, context := NextToken(options, None, " ", context, text, found);
    }
    index := |found|;
  }
}

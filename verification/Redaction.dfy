/** The leak guard and the hook runner (sentinel/agent/hooks.py): banned tokens are replaced
    one after the other in the serialized tool output; a deny beats every other decision. */
module Redaction {
  import opened Common

  const MARK: string := "[redacted]"

  const SEALED_TOKENS: seq<string> := ["feature_flag", "eval_only", "truth.json"]

  const PAYMENT_FLAGS: seq<string> := ["paymentFailure", "paymentUnreachable"]

  const SHOP_FLAGS: seq<string> := ["productCatalogFailure", "cartFailure"]

  const AD_FLAGS: seq<string> := ["adManualGc", "adHighCpu"]

  const BACKEND_FLAGS: seq<string> := ["recommendationCacheFailure", "kafkaQueueProblems"]

  const LOAD_FLAGS: seq<string> := ["loadGeneratorFloodHomepage"]

  const BANNED_TOKENS: seq<string> := SEALED_TOKENS + PAYMENT_FLAGS + SHOP_FLAGS + AD_FLAGS + BACKEND_FLAGS + LOAD_FLAGS

  predicate StartsWith(s: string, t: string) {
    |t| <= |s| && s[..|t|] == t
  }

  /** t in s */
  predicate Occurs(t: string, s: string) {
    StartsWith(s, t) || (s != [] && Occurs(t, s[1..]))
  }

  /** s.replace(t, MARK): left to right, without overlaps. */
  function Replace(s: string, t: string): string
    requires t != []
    decreases |s|
  {
    if StartsWith(s, t) then MARK + Replace(s[|t|..], t)
    else if s == [] then []
    else [s[0]] + Replace(s[1..], t)
  }

  predicate NonEmpty(tokens: seq<string>) {
    forall k :: 0 <= k < |tokens| ==> tokens[k] != []
  }

  /** The tokens replaced in turn. */
  function Redacted(s: string, tokens: seq<string>): string
    requires NonEmpty(tokens)
  {
    if tokens == [] then s
    else Replace(Redacted(s, tokens[..|tokens| - 1]), tokens[|tokens| - 1])
  }

  predicate At(t: string, s: string, i: int) {
    0 <= i <= |s| - |t| && s[i..i + |t|] == t
  }

  /** Occurrence means occurrence at some position. */
  lemma {:induction false} OccursAt(t: string, s: string)
    ensures Occurs(t, s) <==> exists i :: At(t, s, i)
  {
    if StartsWith(s, t) {
      assert At(t, s, 0);
    } else if s != [] {
      OccursAt(t, s[1..]);
      if Occurs(t, s[1..]) {
        var i :| At(t, s[1..], i);
        assert s[1..][i..i + |t|] == s[i + 1..i + 1 + |t|];
        assert At(t, s, i + 1);
      }
      if i :| At(t, s, i) {
        assert s[..|t|] == s[0..0 + |t|];
        assert s[1..][i - 1..i - 1 + |t|] == s[i..i + |t|];
        assert At(t, s[1..], i - 1);
      }
    }
  }

  /** Tokens that replacement can neither create nor hide. */
  predicate Safe(t: string) {
    t != [] && '[' !in t && ']' !in t && !Occurs(t, "redacted")
  }

  lemma {:induction false} LongerDoesNotOccur(t: string, s: string)
    requires |t| > |s|
    ensures !Occurs(t, s)
  {
    if s == [] {
    } else {
      LongerDoesNotOccur(t, s[1..]);
    }
  }

  lemma {:induction false} LongTokenIsSafe(t: string)
    requires |t| > 8 && '[' !in t && ']' !in t
    ensures Safe(t)
  {
    LongerDoesNotOccur(t, "redacted");
  }

  lemma {:induction false} SealedTokensAreSafe()
    ensures AllSafe(SEALED_TOKENS)
  {
    LongTokenIsSafe("feature_flag");
    LongTokenIsSafe("eval_only");
    LongTokenIsSafe("truth.json");
  }

  lemma {:induction false} PaymentFlagsAreSafe()
    ensures AllSafe(PAYMENT_FLAGS)
  {
    LongTokenIsSafe("paymentFailure");
    LongTokenIsSafe("paymentUnreachable");
  }

  lemma {:induction false} ShopFlagsAreSafe()
    ensures AllSafe(SHOP_FLAGS)
  {
    LongTokenIsSafe("productCatalogFailure");
    LongTokenIsSafe("cartFailure");
  }

  lemma {:induction false} AdFlagsAreSafe()
    ensures AllSafe(AD_FLAGS)
  {
    LongTokenIsSafe("adManualGc");
    LongTokenIsSafe("adHighCpu");
  }

  lemma {:induction false} BackendFlagsAreSafe()
    ensures AllSafe(BACKEND_FLAGS)
  {
    LongTokenIsSafe("recommendationCacheFailure");
    LongTokenIsSafe("kafkaQueueProblems");
  }

  lemma {:induction false} LoadFlagsAreSafe()
    ensures AllSafe(LOAD_FLAGS)
  {
    LongTokenIsSafe("loadGeneratorFloodHomepage");
  }

  lemma {:induction false} SafeAppend(a: seq<string>, b: seq<string>)
    requires AllSafe(a) && AllSafe(b)
    ensures AllSafe(a + b) && NonEmpty(a + b)
  {}

  lemma {:induction false} BannedAreAllSafe()
    ensures AllSafe(BANNED_TOKENS) && NonEmpty(BANNED_TOKENS)
  {
    SealedTokensAreSafe();
    PaymentFlagsAreSafe();
    ShopFlagsAreSafe();
    AdFlagsAreSafe();
    BackendFlagsAreSafe();
    LoadFlagsAreSafe();
    SafeAppend(SEALED_TOKENS, PAYMENT_FLAGS);
    SafeAppend(SEALED_TOKENS + PAYMENT_FLAGS, SHOP_FLAGS);
    SafeAppend(SEALED_TOKENS + PAYMENT_FLAGS + SHOP_FLAGS, AD_FLAGS);
    SafeAppend(SEALED_TOKENS + PAYMENT_FLAGS + SHOP_FLAGS + AD_FLAGS, BACKEND_FLAGS);
    SafeAppend(SEALED_TOKENS + PAYMENT_FLAGS + SHOP_FLAGS + AD_FLAGS + BACKEND_FLAGS, LOAD_FLAGS);
  }

  // ----- one replacement ------------------------------------------------------------------------

  /** What does not occur is not replaced. */
  lemma {:induction false} ReplaceNothing(s: string, t: string)
    requires t != [] && !Occurs(t, s)
    ensures Replace(s, t) == s
  {
    if s == [] {
    } else {
      ReplaceNothing(s[1..], t);
    }
  }

  /** The first place t occurs in s. */
  predicate FirstAt(t: string, s: string, k: nat) {
    At(t, s, k) && forall i :: 0 <= i < k ==> !At(t, s, i)
  }

  /** Replacement works left to right and keeps the rest: up to the first occurrence the text
      stays, the occurrence becomes the mark, and what follows it is replaced in turn. */
  lemma {:induction false} ReplaceAtFirst(s: string, t: string, k: nat)
    requires t != [] && FirstAt(t, s, k)
    ensures Replace(s, t) == s[..k] + (MARK + Replace(s[k + |t|..], t))
    decreases k
  {
    if k == 0 {
      ReplaceHere(s, t);
    } else {
      var tail := s[1..];
      ReplaceLater(s, t);
      FirstAtTail(t, s, k);
      ReplaceAtFirst(tail, t, k - 1);
      assert tail[k - 1 + |t|..] == s[k + |t|..];
      Rejoin(s, k, MARK + Replace(s[k + |t|..], t));
    }
  }

  lemma {:induction false} ReplaceHere(s: string, t: string)
    requires t != [] && At(t, s, 0)
    ensures Replace(s, t) == s[..0] + (MARK + Replace(s[0 + |t|..], t))
  {
    assert s[0..0 + |t|] == s[..|t|];
  }

  lemma {:induction false} ReplaceLater(s: string, t: string)
    requires t != [] && s != [] && !At(t, s, 0)
    ensures Replace(s, t) == [s[0]] + Replace(s[1..], t)
  {
    if |t| <= |s| { assert s[0..0 + |t|] == s[..|t|]; }
  }

  lemma {:induction false} FirstAtTail(t: string, s: string, k: nat)
    requires t != [] && k > 0 && FirstAt(t, s, k)
    ensures FirstAt(t, s[1..], k - 1)
  {
    AtTail(t, s, k - 1);
    forall i | 0 <= i < k - 1 ensures !At(t, s[1..], i) { AtTail(t, s, i); }
  }

  lemma {:induction false} Rejoin(s: string, k: nat, rest: string)
    requires 0 < k <= |s|
    ensures [s[0]] + (s[1..][..k - 1] + rest) == s[..k] + rest
  {}

  lemma {:induction false} AtTail(t: string, s: string, i: nat)
    requires s != [] && t != []
    ensures At(t, s[1..], i) <==> At(t, s, i + 1)
  {
    if i + 1 <= |s| - |t| { assert s[1..][i..i + |t|] == s[i + 1..i + 1 + |t|]; }
  }

  /** A bracket-free prefix of the result was already a prefix of the text. */
  lemma {:induction false} PrefixWasThere(u: string, s: string, t: string)
    requires t != [] && '[' !in u && StartsWith(Replace(s, t), u)
    ensures StartsWith(s, u)
    decreases |s|
  {
    if u == [] {
    } else {
      assert u[0] in u && u[0] == Replace(s, t)[0];
      if !StartsWith(s, t) {
        var r := Replace(s[1..], t);
        assert Replace(s, t)[1..] == r;
        assert r[..|u| - 1] == u[1..] by { assert ([s[0]] + r)[..|u|][1..] == r[..|u| - 1]; }
        PrefixWasThere(u[1..], s[1..], t);
        assert s[..|u|] == [s[0]] + s[1..][..|u| - 1];
      }
    }
  }

  lemma {:induction false} StopsBeforeBracket(u: string, s: string, k: nat)
    requires k < |s| && s[k] !in u && StartsWith(s, u)
    ensures |u| <= k
  {
    assert forall i :: 0 <= i < |u| ==> u[i] in u && u[i] == s[i];
  }

  /** A token without brackets found past the mark's "[" lies inside the word or after the mark. */
  lemma {:induction false} OccursPastMark(u: string, word: string, rest: string)
    requires u != [] && ']' !in u && Occurs(u, word + ("]" + rest))
    ensures Occurs(u, word) || Occurs(u, rest)
  {
    var s := word + ("]" + rest);
    if StartsWith(s, u) {
      StopsBeforeBracket(u, s, |word|);
      assert word[..|u|] == s[..|u|];
    } else if word == [] {
      assert s[1..] == rest;
    } else {
      assert s[1..] == word[1..] + ("]" + rest);
      OccursPastMark(u, word[1..], rest);
    }
  }

  lemma {:induction false} OccursAfterMark(u: string, rest: string)
    requires Safe(u) && Occurs(u, MARK + rest)
    ensures Occurs(u, rest)
  {
    var s := MARK + rest;
    assert s[1..] == "redacted" + ("]" + rest);
    if StartsWith(s, u) { StopsBeforeBracket(u, s, 0); }
    OccursPastMark(u, "redacted", rest);
  }

  /** Replacing one token cannot bring another into being. */
  lemma {:induction false} NothingRecreated(u: string, s: string, t: string)
    requires t != [] && Safe(u) && Occurs(u, Replace(s, t))
    ensures Occurs(u, s)
    decreases |s|
  {
    if StartsWith(s, t) {
      OccursAfterMark(u, Replace(s[|t|..], t));
      NothingRecreated(u, s[|t|..], t);
      OccursInSuffix(u, s, |t|);
    } else if s != [] {
      var r := Replace(s, t);
      if StartsWith(r, u) {
        PrefixWasThere(u, s, t);
      } else {
        assert r[1..] == Replace(s[1..], t);
        NothingRecreated(u, s[1..], t);
      }
    }
  }

  lemma {:induction false} OccursInSuffix(u: string, s: string, k: nat)
    requires k <= |s| && Occurs(u, s[k..])
    ensures Occurs(u, s)
  {
    if k == 0 {
      assert s[0..] == s;
    } else {
      assert s[1..][k - 1..] == s[k..];
      OccursInSuffix(u, s[1..], k - 1);
    }
  }

  /** And the replaced token itself is gone. */
  lemma {:induction false} ReplacedIsGone(s: string, t: string)
    requires Safe(t)
    ensures !Occurs(t, Replace(s, t))
    decreases |s|
  {
    var r := Replace(s, t);
    if StartsWith(s, t) {
      ReplacedIsGone(s[|t|..], t);
      if Occurs(t, r) { OccursAfterMark(t, Replace(s[|t|..], t)); }
    } else if s != [] {
      ReplacedIsGone(s[1..], t);
      assert r[1..] == Replace(s[1..], t);
      if StartsWith(r, t) { PrefixWasThere(t, s, t); }
    }
  }

  // ----- all of them ----------------------------------------------------------------------------

  ghost predicate Clean(s: string, tokens: seq<string>) {
    forall k :: 0 <= k < |tokens| ==> !Occurs(tokens[k], s)
  }

  ghost predicate AllSafe(tokens: seq<string>) {
    forall k :: 0 <= k < |tokens| ==> Safe(tokens[k])
  }

  /** After replacing safe tokens in turn, none of them occurs. */
  lemma {:induction false} RedactedIsClean(s: string, tokens: seq<string>)
    requires AllSafe(tokens) && NonEmpty(tokens)
    ensures Clean(Redacted(s, tokens), tokens)
  {
    if tokens == [] {
    } else {
      var n := |tokens| - 1;
      var before := Redacted(s, tokens[..n]);
      RedactedIsClean(s, tokens[..n]);
      ReplacedIsGone(before, tokens[n]);
      forall k | 0 <= k < n ensures !Occurs(tokens[k], Redacted(s, tokens)) {
        assert tokens[..n][k] == tokens[k];
        if Occurs(tokens[k], Redacted(s, tokens)) { NothingRecreated(tokens[k], before, tokens[n]); }
      }
    }
  }

  lemma {:induction false} CleanIsUntouched(s: string, tokens: seq<string>)
    requires Clean(s, tokens) && NonEmpty(tokens)
    ensures Redacted(s, tokens) == s
  {
    if tokens == [] {
    } else {
      var n := |tokens| - 1;
      assert forall k :: 0 <= k < n ==> tokens[..n][k] == tokens[k];
      CleanIsUntouched(s, tokens[..n]);
      ReplaceNothing(s, tokens[n]);
    }
  }

  function Seal(text: string): string {
    BannedAreAllSafe();
    Redacted(text, BANNED_TOKENS)
  }

  /** No banned token survives, a second pass changes nothing, and a text is left alone exactly
      when it holds no banned token. */
  lemma {:induction false} SealIsCleanAndIdempotent(text: string)
    ensures Clean(Seal(text), BANNED_TOKENS)
    ensures Seal(Seal(text)) == Seal(text)
    ensures Seal(text) == text <==> Clean(text, BANNED_TOKENS)
  {
    BannedAreAllSafe();
    RedactedIsClean(text, BANNED_TOKENS);
    CleanIsUntouched(Seal(text), BANNED_TOKENS);
    if Clean(text, BANNED_TOKENS) { CleanIsUntouched(text, BANNED_TOKENS); }
  }

  class RunContext {
    var redactions: nat

    constructor ()
      ensures redactions == 0
    {
      redactions := 0;
    }
  }

  /** SealGuard.post_tool_use on the serialized output. */
  method SealOutput(ctx: RunContext, text: string) returns (sealed: string)
    modifies ctx
    ensures sealed == Seal(text)
    ensures ctx.redactions == old(ctx.redactions) + if Clean(text, BANNED_TOKENS) then 0 else 1
  {
    BannedAreAllSafe();
    SealIsCleanAndIdempotent(text);
    sealed := RedactInTurn(text, BANNED_TOKENS);
    if sealed != text { ctx.redactions := ctx.redactions + 1; }
  }

  /** The replacement loop. */
  method RedactInTurn(text: string, tokens: seq<string>) returns (redacted: string)
    requires NonEmpty(tokens)
    ensures redacted == Redacted(text, tokens)
  {
    redacted := text;
    for i := 0 to |tokens|
      invariant redacted == Redacted(text, tokens[..i])
    {
      var token := tokens[i];
      assert tokens[..i + 1][..i] == tokens[..i];
      if Occurs(token, redacted) { redacted := Replace(redacted, token); } else { ReplaceNothing(redacted, token); }
    }
    assert tokens[..|tokens|] == tokens;
  }

  // ----- the hook runner ----------------------------------------------------------------------------

  datatype Decision = Allow | Deny(reason: string) | Modify(input: string)

  /** hooks[i] is what the i-th hook would answer to the call. The runner stops at a deny. */
  method PreToolUse(hooks: seq<Option<Decision>>) returns (decision: Decision, consulted: nat)
    ensures decision.Deny? <==> exists i :: 0 <= i < |hooks| && IsDeny(hooks[i])
    ensures decision.Deny? ==> FirstDeny(hooks, decision, consulted - 1)
    ensures !decision.Deny? ==> consulted == |hooks|
    ensures decision.Modify? <==> !decision.Deny? && exists i :: 0 <= i < |hooks| && IsModify(hooks[i])
    ensures decision.Modify? ==> exists i :: LastModify(hooks, decision, i)
  {
    decision := Allow;
    for i := 0 to |hooks|
      invariant !decision.Deny? && forall j :: 0 <= j < i ==> !IsDeny(hooks[j])
      invariant decision.Modify? <==> exists j :: 0 <= j < i && IsModify(hooks[j])
      invariant decision.Modify? ==> exists j :: LastModify(hooks[..i], decision, j)
    {
      if IsDeny(hooks[i]) { return hooks[i].value, i + 1; }
      assert hooks[..i + 1] == hooks[..i] + [hooks[i]];
      if IsModify(hooks[i]) {
        decision := hooks[i].value;
        assert LastModify(hooks[..i + 1], decision, i);
      } else if decision.Modify? {
        ghost var j :| LastModify(hooks[..i], decision, j);
        assert LastModify(hooks[..i + 1], decision, j);
      }
    }
    assert hooks[..|hooks|] == hooks;
    consulted := |hooks|;
  }

  predicate IsDeny(o: Option<Decision>) {
    o.Some? && o.value.Deny?
  }

  predicate IsModify(o: Option<Decision>) {
    o.Some? && o.value.Modify?
  }

  predicate FirstDeny(hooks: seq<Option<Decision>>, d: Decision, i: int) {
    0 <= i < |hooks| && hooks[i] == Some(d) && forall j :: 0 <= j < i ==> !IsDeny(hooks[j])
  }

  predicate LastModify(hooks: seq<Option<Decision>>, d: Decision, i: int) {
    0 <= i < |hooks| && hooks[i] == Some(d) && forall j :: i < j < |hooks| ==> !IsModify(hooks[j])
  }
}

/** What `convertIngress` promises, stated about `Compile` and
    `ConvertedIngress`: the class gate, the abort rules, the order and count
    of the references in `router.middlewares`, the annotations it leaves
    alone, and the sorted result. */
module CompilerProperties {
  import opened Wrappers
  import opened GoStrings
  import opened Resources
  import opened RuleTypes
  import opened Sorting
  import opened Compiler

  /** Lines 235-238: an Ingress of another class comes back as it was, with
      no middleware. */
  lemma OtherClassPassesThrough(h: Helpers, ing: Ingress)
    requires IsOtherClass(h, ing)
    ensures ConvertedIngress(h, ing) == Some(Conversion(ing, []))
  {
  }

  /** The per-path synthesis of a concatenation of paths is the
      concatenation of their synthesis: paths are visited in order. */
  lemma PathsMiddlewaresConcat(h: Helpers, ing: Ingress, rule: Rule, a: seq<IngressPath>, b: seq<IngressPath>,
                                stripPrefix: bool, rewriteTarget: string)
    ensures PathsMiddlewares(h, ing, rule, a + b, stripPrefix, rewriteTarget)
            == PathsMiddlewares(h, ing, rule, a, stripPrefix, rewriteTarget) + PathsMiddlewares(h, ing, rule, b, stripPrefix, rewriteTarget)
  {
    FlatMapConcat(PathStep(h, ing, rule, stripPrefix, rewriteTarget), a, b);
  }

  /** Rules are visited in order, each contributing its paths' middlewares. */
  lemma RulesMiddlewaresConcat(h: Helpers, ing: Ingress, a: seq<Rule>, b: seq<Rule>,
                               stripPrefix: bool, rewriteTarget: string)
    ensures RulesMiddlewares(h, ing, a + b, stripPrefix, rewriteTarget)
            == RulesMiddlewares(h, ing, a, stripPrefix, rewriteTarget) + RulesMiddlewares(h, ing, b, stripPrefix, rewriteTarget)
  {
    FlatMapConcat(RuleStep(h, ing, stripPrefix, rewriteTarget), a, b);
  }

  /** A rule without an `http` block contributes nothing, wherever it
      stands among the rules. */
  lemma RuleWithoutHttpAddsNothing(h: Helpers, ing: Ingress, a: seq<Rule>, host: string, b: seq<Rule>,
                                   stripPrefix: bool, rewriteTarget: string)
    ensures RulesMiddlewares(h, ing, a + [Rule(host, None)] + b, stripPrefix, rewriteTarget)
            == RulesMiddlewares(h, ing, a + b, stripPrefix, rewriteTarget)
  {
    var bare := [Rule(host, None)];
    RulesMiddlewaresConcat(h, ing, a + bare, b, stripPrefix, rewriteTarget);
    RulesMiddlewaresConcat(h, ing, a, bare, stripPrefix, rewriteTarget);
    RulesMiddlewaresConcat(h, ing, a, b, stripPrefix, rewriteTarget);
    assert bare[..0] == [];
    assert RulesMiddlewares(h, ing, bare, stripPrefix, rewriteTarget) == [];
    assert RulesMiddlewares(h, ing, a + bare, stripPrefix, rewriteTarget) == RulesMiddlewares(h, ing, a, stripPrefix, rewriteTarget);
  }

  /** A rule with a host and no `http` block: as written the path loop
      panics on it, while the conversion modelled here passes over it. */
  lemma HostOnlyRule(h: Helpers, ing: Ingress, stripPrefix: bool, rewriteTarget: string)
    ensures VisitedPathsAsWritten([Rule("example.com", None)]).Failure?
    ensures RulesMiddlewares(h, ing, [Rule("example.com", None)], stripPrefix, rewriteTarget) == []
  {
    assert [Rule("example.com", None)][0].http.None?;
    assert [Rule("example.com", None)][..0] == [];
  }

  /** Lines 299-326 for one path: at most three middlewares, strip-prefix
      first and the app-root redirect last; an empty path only ever gets
      the app-root redirect. */
  lemma PathContribution(h: Helpers, ing: Ingress, rule: Rule, p: IngressPath, stripPrefix: bool, rewriteTarget: string)
    ensures var ms := PathMiddlewares(h, ing, rule, p, stripPrefix, rewriteTarget);
      var redirect := h.frontendRedirectAppRoot(ing.namespace, ing.name, ing.annotations, rule.host + p.path, p.path);
      && |ms| <= 3
      && (|p.path| == 0 ==> ms == redirect.ToSeq())
      && (|p.path| > 0 && stripPrefix ==> ms[0] == h.stripPrefix(p, rule.host + p.path, ing.namespace))
      && (redirect.Some? ==> ms[|ms| - 1] == redirect.value)
      && (|p.path| > 0 && rewriteTarget != "" ==> h.replacePathRegex(rule, p, ing.namespace, rewriteTarget) in ms)
  {
  }

  /** Lines 292-296 and 307-312: the conversion of an Ingress of a traefik
      class (or of no class) is aborted exactly when the rule type is not
      one of the five accepted values, or when a rewrite target is set, the
      rule type is `ReplacePath` and some path of some rule is non-empty. */
  lemma AbortedIff(h: Helpers, ing: Ingress)
    ensures var value := GetStringValue(h.lookup, ing.annotations, RuleType, PathPrefix);
      var rewriteTarget := GetStringValue(h.lookup, ing.annotations, RewriteTarget, "");
      Compile(h, ing).None? <==>
        && !IsOtherClass(h, ing)
        && (|| value !in {Path, PathPrefix, PathStrip, PathPrefixStrip, ReplacePath}
            || (&& rewriteTarget != "" && value == ReplacePath
                && exists i, k :: 0 <= i < |ing.rules| && 0 <= k < |RulePaths(ing.rules[i])| && |RulePaths(ing.rules[i])[k].path| > 0))
  {
    var value := GetStringValue(h.lookup, ing.annotations, RuleType, PathPrefix);
    var r := ExtractRuleType(h.lookup, ing.annotations);
    assert r == ResolveRuleType(value);
    if r.Success? {
      assert r.value.ruleType == ReplacePath <==> value == ReplacePath;
    }
    HasNonEmptyPathIff(ing.rules);
    if HasNonEmptyPath(ing.rules) {
      var i :| 0 <= i < |ing.rules| && !AllPathsEmpty(RulePaths(ing.rules[i]));
      AllPathsEmptyIff(RulePaths(ing.rules[i]));
      var k :| 0 <= k < |RulePaths(ing.rules[i])| && |RulePaths(ing.rules[i])[k].path| > 0;
    } else {
      forall i, k | 0 <= i < |ing.rules| && 0 <= k < |RulePaths(ing.rules[i])|
        ensures |RulePaths(ing.rules[i])[k].path| == 0
      {
        AllPathsEmptyIff(RulePaths(ing.rules[i]));
      }
    }
  }

  /** A reference contains a comma only when the namespace or the name
      does. */
  lemma ReferenceWithoutComma(m: Middleware)
    requires ',' !in m.namespace && ',' !in m.name
    ensures ',' !in Reference(m)
  {
    assert ',' !in "@" + MiddlewareSuffix;
  }

  /** Lines 244-330: the `router.middlewares` annotation is written exactly
      when there is a reference, and splits back into the SSL reference
      (when that annotation is set) followed by one
      `<namespace>-<name>@kubernetescrd` per synthesized middleware, in
      synthesis order; so it holds one more entry than there are
      middlewares when the SSL redirect is set, and as many otherwise.
      Without a reference the annotations are the input's with only the
      entrypoints copy. Kubernetes object names never hold a comma, which
      the requirement states. */
  lemma ChainRoundTrip(h: Helpers, ing: Ingress)
    requires !IsOtherClass(h, ing) && Compile(h, ing).Some?
    requires forall k :: 0 <= k < |Compile(h, ing).value.middlewares| ==>
      ',' !in Compile(h, ing).value.middlewares[k].namespace && ',' !in Compile(h, ing).value.middlewares[k].name
    ensures var c := Compile(h, ing).value;
      var ssl := GetStringValue(h.lookup, ing.annotations, SslRedirect, "");
      && ((ssl != "" || |c.middlewares| > 0) ==>
            && RouterMiddlewares in c.ingress.annotations
            && var refs := Split(c.ingress.annotations[RouterMiddlewares], ",");
               && |refs| == |c.middlewares| + (if ssl != "" then 1 else 0)
               && (ssl != "" ==> refs[0] == SslMiddlewareRef)
               && (forall k :: 0 <= k < |c.middlewares| ==>
                     refs[k + (if ssl != "" then 1 else 0)] == Reference(c.middlewares[k])))
      && ((ssl == "" && |c.middlewares| == 0) ==> c.ingress.annotations == WithEntryPoints(h, ing))
  {
    var c := Compile(h, ing).value;
    assert c.ingress.annotations == RouterAnnotations(h, ing, SslReferences(h, ing) + References(c.middlewares));
    RouterChainRoundTrip(h, ing, c.middlewares);
  }

  /** The same for any list of middlewares whose namespaces and names hold
      no comma: the annotation built from the chain splits back into it. */
  lemma {:induction false} RouterChainRoundTrip(h: Helpers, ing: Ingress, mws: seq<Middleware>)
    requires forall k :: 0 <= k < |mws| ==> ',' !in mws[k].namespace && ',' !in mws[k].name
    ensures var annotations := RouterAnnotations(h, ing, SslReferences(h, ing) + References(mws));
      var ssl := GetStringValue(h.lookup, ing.annotations, SslRedirect, "");
      && ((ssl != "" || |mws| > 0) ==>
            && RouterMiddlewares in annotations
            && var refs := Split(annotations[RouterMiddlewares], ",");
               && |refs| == |mws| + (if ssl != "" then 1 else 0)
               && (ssl != "" ==> refs[0] == SslMiddlewareRef)
               && (forall k :: 0 <= k < |mws| ==> refs[k + (if ssl != "" then 1 else 0)] == Reference(mws[k])))
      && ((ssl == "" && |mws| == 0) ==> annotations == WithEntryPoints(h, ing))
  {
    var chain := SslReferences(h, ing) + References(mws);
    ChainLayout(h, ing, mws);
    if |chain| > 0 {
      ChainWithoutComma(h, ing, mws);
      SplitJoin(chain, ',');
      assert RouterAnnotations(h, ing, chain)[RouterMiddlewares] == Join(chain, ",");
    }
  }

  /** The chain is the SSL reference, when set, then one reference per
      middleware in order. */
  lemma ChainLayout(h: Helpers, ing: Ingress, mws: seq<Middleware>)
    ensures var chain := SslReferences(h, ing) + References(mws);
      var ssl := GetStringValue(h.lookup, ing.annotations, SslRedirect, "");
      && |chain| == |mws| + (if ssl != "" then 1 else 0)
      && (ssl != "" ==> chain[0] == SslMiddlewareRef)
      && (forall k :: 0 <= k < |mws| ==> chain[k + (if ssl != "" then 1 else 0)] == Reference(mws[k]))
  {
  }

  /** No entry of the chain holds a comma when no namespace or name does. */
  lemma ChainWithoutComma(h: Helpers, ing: Ingress, mws: seq<Middleware>)
    requires forall k :: 0 <= k < |mws| ==> ',' !in mws[k].namespace && ',' !in mws[k].name
    ensures var chain := SslReferences(h, ing) + References(mws);
      forall i :: 0 <= i < |chain| ==> ',' !in chain[i]
  {
    var chain := SslReferences(h, ing) + References(mws);
    forall i | 0 <= i < |chain|
      ensures ',' !in chain[i]
    {
      if i < |SslReferences(h, ing)| {
        assert chain[i] == SslMiddlewareRef;
      } else {
        var k := i - |SslReferences(h, ing)|;
        assert chain[i] == References(mws)[k] == Reference(mws[k]);
        ReferenceWithoutComma(mws[k]);
      }
    }
  }

  /** The SSL reference is never the reference of a synthesized middleware,
      so it appears in the chain once when the annotation is set and not at
      all otherwise. */
  lemma SslReferenceStandsAlone(h: Helpers, ing: Ingress, mws: seq<Middleware>)
    ensures SslMiddlewareRef !in References(mws)
    ensures SslMiddlewareRef in SslReferences(h, ing) + References(mws)
            <==> GetStringValue(h.lookup, ing.annotations, SslRedirect, "") != ""
  {
    forall k | 0 <= k < |mws|
      ensures References(mws)[k] != SslMiddlewareRef
    {
      SslRefIsNotSynthesized(mws[k]);
    }
  }

  /** Lines 240-243 and 328-330: the entrypoints are copied to
      `router.entrypoints` only when set; apart from that key and
      `router.middlewares` every annotation is kept as it was. */
  lemma AnnotationsKept(h: Helpers, ing: Ingress)
    requires Compile(h, ing).Some?
    ensures var annotations := Compile(h, ing).value.ingress.annotations;
      var entryPoints := GetStringValue(h.lookup, ing.annotations, FrontendEntryPoints, "");
      && (!IsOtherClass(h, ing) && entryPoints != "" ==>
            RouterEntryPoints in annotations && annotations[RouterEntryPoints] == entryPoints)
      && ((IsOtherClass(h, ing) || entryPoints == "") ==>
            (RouterEntryPoints in annotations <==> RouterEntryPoints in ing.annotations)
            && (RouterEntryPoints in ing.annotations ==> annotations[RouterEntryPoints] == ing.annotations[RouterEntryPoints]))
      && (forall key :: key != RouterEntryPoints && key != RouterMiddlewares ==>
            (key in annotations <==> key in ing.annotations)
            && (key in ing.annotations ==> annotations[key] == ing.annotations[key]))
  {
    if !IsOtherClass(h, ing) {
      var c := Compile(h, ing).value;
      assert c.ingress.annotations == RouterAnnotations(h, ing, SslReferences(h, ing) + References(c.middlewares));
      RouterAnnotationsKeep(h, ing, SslReferences(h, ing) + References(c.middlewares));
    }
  }

  /** The same for the annotations built around any chain of references. */
  lemma RouterAnnotationsKeep(h: Helpers, ing: Ingress, chain: seq<string>)
    ensures var annotations := RouterAnnotations(h, ing, chain);
      var entryPoints := GetStringValue(h.lookup, ing.annotations, FrontendEntryPoints, "");
      && (entryPoints != "" ==> RouterEntryPoints in annotations && annotations[RouterEntryPoints] == entryPoints)
      && (entryPoints == "" ==> (RouterEntryPoints in annotations <==> RouterEntryPoints in ing.annotations))
      && (entryPoints == "" && RouterEntryPoints in ing.annotations ==>
            annotations[RouterEntryPoints] == ing.annotations[RouterEntryPoints])
      && (forall key :: key != RouterEntryPoints && key != RouterMiddlewares ==>
            (key in annotations <==> key in ing.annotations)
            && (key in ing.annotations ==> annotations[key] == ing.annotations[key]))
  {
    assert RouterEntryPoints[37] != RouterMiddlewares[37];
  }

  /** Lines 332-337: the returned middlewares are those synthesized, sorted
      by name ascending; everything else is the synthesis result. */
  lemma ConvertedIsSortedPermutation(h: Helpers, ing: Ingress)
    ensures ConvertedIngress(h, ing).Some? <==> Compile(h, ing).Some?
    ensures ConvertedIngress(h, ing).Some? ==>
      && ConvertedIngress(h, ing).value.ingress == Compile(h, ing).value.ingress
      && IsSortedByName(ConvertedIngress(h, ing).value.middlewares)
      && multiset(ConvertedIngress(h, ing).value.middlewares) == multiset(Compile(h, ing).value.middlewares)
  {
    if Compile(h, ing).Some? {
      SortByNameCorrect(Compile(h, ing).value.middlewares);
    }
  }

  /** An Ingress whose only effective annotation is the SSL redirect gets
      `ssl-redirect@file` as its whole chain and no middleware object. */
  lemma SslOnly(h: Helpers, ing: Ingress)
    requires !IsOtherClass(h, ing)
    requires GetStringValue(h.lookup, ing.annotations, SslRedirect, "") != ""
    requires Synthesized(h, ing) == Some([])
    ensures Compile(h, ing).Some?
    ensures Compile(h, ing).value.middlewares == []
    ensures Compile(h, ing).value.ingress.annotations[RouterMiddlewares] == SslMiddlewareRef
  {
    assert SslReferences(h, ing) + References([]) == [SslMiddlewareRef];
  }
}

/** `convertIngress`: the annotations of a Traefik v1 Ingress compiled into
    Traefik v2 Middleware objects and a `router.middlewares` chain on a copy
    of the Ingress. */
module Compiler {
  import opened Wrappers
  import opened GoStrings
  import opened Resources
  import opened RuleTypes
  import opened Sorting

  /** The functions `convertIngress` calls that live outside ingress.go,
      as parameters: the annotation lookup behind `getStringValue`, and the
      builders `getAuthMiddleware`, `getHeadersMiddleware`, `getWhiteList`,
      `parseRequestModifier(namespace, value, name)`,
      `getFrontendRedirect(namespace, name, annotations)`,
      `getStripPrefix(path, host+path, namespace)`,
      `getReplacePathRegex(rule, path, namespace, rewriteTarget)` and
      `getFrontendRedirectAppRoot(namespace, name, annotations, host+path, path)`. */
  datatype Helpers = Helpers(
    lookup: Lookup,
    authMiddleware: Ingress -> Option<Middleware>,
    headersMiddleware: Ingress -> Option<Middleware>,
    whiteList: Ingress -> Option<Middleware>,
    parseRequestModifier: (string, string, string) -> Result<Middleware, string>,
    frontendRedirect: (string, string, Annotations) -> Option<Middleware>,
    stripPrefix: (IngressPath, string, string) -> Middleware,
    replacePathRegex: (Rule, IngressPath, string, string) -> Middleware,
    frontendRedirectAppRoot: (string, string, Annotations, string, string) -> Option<Middleware>)

  /** The rewritten Ingress and the middleware objects. */
  datatype Conversion = Conversion(ingress: Ingress, middlewares: seq<Middleware>)

  /** The class gate: an ingress class is set and does not mention traefik. */
  predicate IsOtherClass(h: Helpers, ing: Ingress) {
    var ingressClass := GetStringValue(h.lookup, ing.annotations, IngressClass, "");
    |ingressClass| > 0 && !Contains(ingressClass, "traefik")
  }

  /** The request-modifier middleware, unless the annotation is absent or
      does not parse. */
  function RequestModifierMiddleware(h: Helpers, ing: Ingress): seq<Middleware>
  {
    var value := GetStringValue(h.lookup, ing.annotations, RequestModifier, "");
    if value == "" then []
    else match h.parseRequestModifier(ing.namespace, value, ing.name)
      case Success(m) => [m]
      case Failure(_) => []
  }

  /** The frontend redirect, looked at only when no app-root is set. */
  function FrontendRedirectMiddleware(h: Helpers, ing: Ingress): seq<Middleware>
  {
    if GetStringValue(h.lookup, ing.annotations, AppRoot, "") == ""
    then h.frontendRedirect(ing.namespace, ing.name, ing.annotations).ToSeq()
    else []
  }

  /** The resource-level middlewares, in synthesis order: auth, headers,
      whitelist, request modifier, frontend redirect. */
  function ResourceMiddlewares(h: Helpers, ing: Ingress): seq<Middleware>
  {
    h.authMiddleware(ing).ToSeq() + h.headersMiddleware(ing).ToSeq() + h.whiteList(ing).ToSeq()
    + RequestModifierMiddleware(h, ing) + FrontendRedirectMiddleware(h, ing)
  }

  /** What one path of one rule contributes: strip-prefix and
      replace-path-regex for a non-empty path, then the app-root redirect. */
  function PathMiddlewares(h: Helpers, ing: Ingress, rule: Rule, p: IngressPath, stripPrefix: bool, rewriteTarget: string): seq<Middleware>
  {
    (if |p.path| > 0 && stripPrefix then [h.stripPrefix(p, rule.host + p.path, ing.namespace)] else [])
    + (if |p.path| > 0 && rewriteTarget != "" then [h.replacePathRegex(rule, p, ing.namespace, rewriteTarget)] else [])
    + h.frontendRedirectAppRoot(ing.namespace, ing.name, ing.annotations, rule.host + p.path, p.path).ToSeq()
  }

  /** `f` applied to every element, the results concatenated in order: the
      shape of a loop that appends what each element contributes. */
  function FlatMap<T, U>(f: T -> seq<U>, xs: seq<T>): seq<U>
  {
    if xs == [] then [] else FlatMap(f, xs[..|xs| - 1]) + f(xs[|xs| - 1])
  }

  /** One more element appends its contribution. */
  lemma FlatMapStep<T, U>(f: T -> seq<U>, xs: seq<T>, j: nat)
    requires j < |xs|
    ensures FlatMap(f, xs[..j + 1]) == FlatMap(f, xs[..j]) + f(xs[j])
  {
    var longer := xs[..j + 1];
    assert longer[..|longer| - 1] == xs[..j];
  }

  /** The contributions of a concatenation are those of its halves, in order. */
  lemma {:induction false} FlatMapConcat<T, U>(f: T -> seq<U>, a: seq<T>, b: seq<T>)
    ensures FlatMap(f, a + b) == FlatMap(f, a) + FlatMap(f, b)
    decreases |b|
  {
    if b == [] {
      assert a + b == a;
    } else {
      var b' := b[..|b| - 1];
      var ab := a + b;
      assert ab[..|ab| - 1] == a + b';
      FlatMapConcat(f, a, b');
    }
  }

  /** The contribution of each path of `rule`. */
  function PathStep(h: Helpers, ing: Ingress, rule: Rule, stripPrefix: bool, rewriteTarget: string): IngressPath -> seq<Middleware>
  {
    p => PathMiddlewares(h, ing, rule, p, stripPrefix, rewriteTarget)
  }

  function PathsMiddlewares(h: Helpers, ing: Ingress, rule: Rule, paths: seq<IngressPath>, stripPrefix: bool, rewriteTarget: string): seq<Middleware>
  {
    FlatMap(PathStep(h, ing, rule, stripPrefix, rewriteTarget), paths)
  }

  /** The contribution of each rule: that of its paths. */
  function RuleStep(h: Helpers, ing: Ingress, stripPrefix: bool, rewriteTarget: string): Rule -> seq<Middleware>
  {
    rule => PathsMiddlewares(h, ing, rule, RulePaths(rule), stripPrefix, rewriteTarget)
  }

  /** The per-path middlewares of all rules, rule by rule and path by path. */
  function RulesMiddlewares(h: Helpers, ing: Ingress, rules: seq<Rule>, stripPrefix: bool, rewriteTarget: string): seq<Middleware>
  {
    FlatMap(RuleStep(h, ing, stripPrefix, rewriteTarget), rules)
  }

  /** One more path extends the per-path middlewares by that path's. */
  lemma PathsMiddlewaresStep(h: Helpers, ing: Ingress, rule: Rule, paths: seq<IngressPath>, j: nat,
                             stripPrefix: bool, rewriteTarget: string)
    requires j < |paths|
    ensures PathsMiddlewares(h, ing, rule, paths[..j + 1], stripPrefix, rewriteTarget)
            == PathsMiddlewares(h, ing, rule, paths[..j], stripPrefix, rewriteTarget)
               + PathMiddlewares(h, ing, rule, paths[j], stripPrefix, rewriteTarget)
  {
    FlatMapStep(PathStep(h, ing, rule, stripPrefix, rewriteTarget), paths, j);
  }

  /** One more rule extends the per-rule middlewares by that rule's. */
  lemma RulesMiddlewaresStep(h: Helpers, ing: Ingress, rules: seq<Rule>, i: nat, stripPrefix: bool, rewriteTarget: string)
    requires i < |rules|
    ensures RulesMiddlewares(h, ing, rules[..i + 1], stripPrefix, rewriteTarget)
            == RulesMiddlewares(h, ing, rules[..i], stripPrefix, rewriteTarget)
               + PathsMiddlewares(h, ing, rules[i], RulePaths(rules[i]), stripPrefix, rewriteTarget)
  {
    FlatMapStep(RuleStep(h, ing, stripPrefix, rewriteTarget), rules, i);
  }

  /** The reads of `rule.HTTP.Paths` at lines 298-299 over `rules`, as
      written: the read dereferences `rule.HTTP`, so reading the paths of a
      rule without an `http` block is a nil-pointer panic, modelled as
      `Failure`. Only the reads are modelled: an abort at line 311 on an
      earlier rule returns before a later rule is read. */
  function VisitedPathsAsWritten(rules: seq<Rule>): (r: Result<seq<IngressPath>, string>)
    ensures r.Failure? <==> exists i :: 0 <= i < |rules| && rules[i].http.None?
  {
    if rules == [] then Success([])
    else
      var init := rules[..|rules| - 1];
      assert forall i :: 0 <= i < |init| ==> init[i] == rules[i];
      match VisitedPathsAsWritten(init)
      case Failure(e) => Failure(e)
      case Success(visited) =>
        match rules[|rules| - 1].http
        case None => Failure("invalid memory address or nil pointer dereference")
        case Some(paths) => Success(visited + paths)
  }

  /** No path of `paths` is non-empty; stated from the back, the way the
      path loop extends what it has seen. */
  predicate AllPathsEmpty(paths: seq<IngressPath>)
  {
    paths == [] || (AllPathsEmpty(paths[..|paths| - 1]) && |paths[|paths| - 1].path| == 0)
  }

  /** Some rule has a non-empty path; stated from the back like the rule
      loop. */
  predicate HasNonEmptyPath(rules: seq<Rule>)
  {
    rules != [] && (HasNonEmptyPath(rules[..|rules| - 1]) || !AllPathsEmpty(RulePaths(rules[|rules| - 1])))
  }

  /** The static SSL redirect reference, when that annotation is set. */
  function SslReferences(h: Helpers, ing: Ingress): seq<string>
  {
    if GetStringValue(h.lookup, ing.annotations, SslRedirect, "") != "" then [SslMiddlewareRef] else []
  }

  /** `AllPathsEmpty` means what it says: every path is empty. */
  lemma {:induction false} AllPathsEmptyIff(paths: seq<IngressPath>)
    ensures AllPathsEmpty(paths) <==> forall k :: 0 <= k < |paths| ==> |paths[k].path| == 0
  {
    if paths != [] {
      var init := paths[..|paths| - 1];
      AllPathsEmptyIff(init);
      assert forall k :: 0 <= k < |init| ==> init[k] == paths[k];
    }
  }

  /** `HasNonEmptyPath` means what it says: some rule has a non-empty path. */
  lemma {:induction false} HasNonEmptyPathIff(rules: seq<Rule>)
    ensures HasNonEmptyPath(rules) <==> exists i :: 0 <= i < |rules| && !AllPathsEmpty(RulePaths(rules[i]))
  {
    if rules != [] {
      var init := rules[..|rules| - 1];
      HasNonEmptyPathIff(init);
      assert forall i :: 0 <= i < |init| ==> init[i] == rules[i];
    }
  }

  /** A non-empty path anywhere makes `AllPathsEmpty` false. */
  lemma NonEmptyPathFound(paths: seq<IngressPath>, j: nat)
    requires j < |paths| && |paths[j].path| > 0
    ensures !AllPathsEmpty(paths)
  {
    AllPathsEmptyIff(paths);
  }

  /** A rule with a non-empty path anywhere makes `HasNonEmptyPath` true. */
  lemma NonEmptyRuleFound(rules: seq<Rule>, i: nat)
    requires i < |rules| && !AllPathsEmpty(RulePaths(rules[i]))
    ensures HasNonEmptyPath(rules)
  {
    HasNonEmptyPathIff(rules);
  }

  /** One more empty path keeps the prefix free of non-empty paths. */
  lemma AllPathsEmptyExtended(paths: seq<IngressPath>, j: nat)
    requires j < |paths| && AllPathsEmpty(paths[..j]) && |paths[j].path| == 0
    ensures AllPathsEmpty(paths[..j + 1])
  {
    var longer := paths[..j + 1];
    assert longer[..|longer| - 1] == paths[..j];
  }

  /** A prefix of the rules without a non-empty path stays so when the next
      rule has none either. */
  lemma NoNonEmptyPathExtended(rules: seq<Rule>, i: nat)
    requires i < |rules| && !HasNonEmptyPath(rules[..i]) && AllPathsEmpty(RulePaths(rules[i]))
    ensures !HasNonEmptyPath(rules[..i + 1])
  {
    var longer := rules[..i + 1];
    assert longer[..|longer| - 1] == rules[..i];
  }

  /** One reference per middleware, in the same order. */
  function References(ms: seq<Middleware>): (refs: seq<string>)
    ensures |refs| == |ms|
  {
    seq(|ms|, k requires 0 <= k < |ms| => Reference(ms[k]))
  }

  /** The annotations with the entrypoints copied to the router annotation
      when they are set. */
  function WithEntryPoints(h: Helpers, ing: Ingress): Annotations
  {
    var entryPoints := GetStringValue(h.lookup, ing.annotations, FrontendEntryPoints, "");
    if entryPoints != "" then ing.annotations[RouterEntryPoints := entryPoints] else ing.annotations
  }

  /** The middlewares in synthesis order, resource-level first and then
      rule by rule and path by path; `None` when the rule type annotation is
      unknown or a rewrite target meets the `ReplacePath` rule type on a
      non-empty path. */
  function Synthesized(h: Helpers, ing: Ingress): Option<seq<Middleware>>
  {
    match ExtractRuleType(h.lookup, ing.annotations)
    case Failure(_) => None
    case Success(res) =>
      var rewriteTarget := GetStringValue(h.lookup, ing.annotations, RewriteTarget, "");
      if rewriteTarget != "" && res.ruleType == ReplacePath && HasNonEmptyPath(ing.rules) then None
      else Some(ResourceMiddlewares(h, ing) + RulesMiddlewares(h, ing, ing.rules, res.stripPrefix, rewriteTarget))
  }

  /** The rewritten annotations: the entrypoints copy, then the chain of
      references joined with commas when there is one. */
  function RouterAnnotations(h: Helpers, ing: Ingress, chain: seq<string>): Annotations
  {
    var annotations := WithEntryPoints(h, ing);
    if |chain| > 0 then annotations[RouterMiddlewares := Join(chain, ",")] else annotations
  }

  /** The conversion, with the middlewares in synthesis order; `None` when
      the conversion of this Ingress is aborted. */
  function Compile(h: Helpers, ing: Ingress): Option<Conversion>
  {
    if IsOtherClass(h, ing) then Some(Conversion(ing, []))
    else match Synthesized(h, ing)
      case None => None
      case Some(mws) =>
        var chain := SslReferences(h, ing) + References(mws);
        Some(Conversion(ing.(annotations := RouterAnnotations(h, ing, chain)), mws))
  }

  /** What `convertIngress` returns: the conversion with its middleware
      objects sorted by name. */
  function ConvertedIngress(h: Helpers, ing: Ingress): Option<Conversion>
  {
    match Compile(h, ing)
    case None => None
    case Some(c) => Some(Conversion(c.ingress, SortByName(c.middlewares)))
  }

  lemma ReferencesConcat(a: seq<Middleware>, b: seq<Middleware>)
    ensures References(a + b) == References(a) + References(b)
  {
  }

  /** Appending `b` after `a` has been appended is appending `a + b`, for
      the middlewares and for their references alike. */
  lemma Extend(start: seq<Middleware>, startNames: seq<string>, a: seq<Middleware>, b: seq<Middleware>,
               middlewares: seq<Middleware>, middlewareNames: seq<string>,
               middlewares': seq<Middleware>, middlewareNames': seq<string>)
    requires middlewares == start + a && middlewareNames == startNames + References(a)
    requires middlewares' == middlewares + b && middlewareNames' == middlewareNames + References(b)
    ensures middlewares' == start + (a + b)
    ensures middlewareNames' == startNames + References(a + b)
  {
    assert (start + a) + b == start + (a + b);
    ReferencesConcat(a, b);
    assert (startNames + References(a)) + References(b) == startNames + (References(a) + References(b));
  }

  /** `if m != nil { append both }`, stated relative to what was appended
      since the start of a block of appends. */
  method AppendIfPresent(middlewares: seq<Middleware>, middlewareNames: seq<string>, m: Option<Middleware>,
                         ghost start: seq<Middleware>, ghost startNames: seq<string>, ghost added: seq<Middleware>)
    returns (middlewares': seq<Middleware>, middlewareNames': seq<string>)
    requires middlewares == start + added
    requires middlewareNames == startNames + References(added)
    ensures middlewares' == start + (added + m.ToSeq())
    ensures middlewareNames' == startNames + References(added + m.ToSeq())
  {
    middlewares', middlewareNames' := middlewares, middlewareNames;
    if m.Some? {
      middlewares' := middlewares + [m.value];
      middlewareNames' := middlewareNames + [Reference(m.value)];
    }
    Extend(start, startNames, added, m.ToSeq(), middlewares, middlewareNames, middlewares', middlewareNames');
  }

  /** Lines 252-268: the auth, headers and whitelist middlewares. */
  method AppendBuiltMiddlewares(h: Helpers, ing: Ingress, middlewares: seq<Middleware>, middlewareNames: seq<string>)
    returns (middlewares': seq<Middleware>, middlewareNames': seq<string>)
    ensures middlewares' == middlewares + (h.authMiddleware(ing).ToSeq() + h.headersMiddleware(ing).ToSeq() + h.whiteList(ing).ToSeq())
    ensures middlewareNames' == middlewareNames + References(h.authMiddleware(ing).ToSeq() + h.headersMiddleware(ing).ToSeq() + h.whiteList(ing).ToSeq())
  {
    ghost var added: seq<Middleware> := [];
    middlewares', middlewareNames' := middlewares, middlewareNames;

    var auth := h.authMiddleware(ing);
    middlewares', middlewareNames' := AppendIfPresent(middlewares', middlewareNames', auth, middlewares, middlewareNames, added);
    added := added + auth.ToSeq();

    var headers := h.headersMiddleware(ing);
    middlewares', middlewareNames' := AppendIfPresent(middlewares', middlewareNames', headers, middlewares, middlewareNames, added);
    added := added + headers.ToSeq();

    var whiteList := h.whiteList(ing);
    middlewares', middlewareNames' := AppendIfPresent(middlewares', middlewareNames', whiteList, middlewares, middlewareNames, added);
  }

  /** Lines 252-290: the resource-level middlewares appended in order. */
  method AppendResourceMiddlewares(h: Helpers, ing: Ingress, middlewares: seq<Middleware>, middlewareNames: seq<string>)
    returns (middlewares': seq<Middleware>, middlewareNames': seq<string>)
    ensures middlewares' == middlewares + ResourceMiddlewares(h, ing)
    ensures middlewareNames' == middlewareNames + References(ResourceMiddlewares(h, ing))
  {
    ghost var added := h.authMiddleware(ing).ToSeq() + h.headersMiddleware(ing).ToSeq() + h.whiteList(ing).ToSeq();
    middlewares', middlewareNames' := AppendBuiltMiddlewares(h, ing, middlewares, middlewareNames);

    var modifier: Option<Middleware> := None;
    var requestModifier := GetStringValue(h.lookup, ing.annotations, RequestModifier, "");
    if requestModifier != "" {
      var parsed := h.parseRequestModifier(ing.namespace, requestModifier, ing.name);
      if parsed.Success? {
        modifier := Some(parsed.value);
      }
    }
    assert modifier.ToSeq() == RequestModifierMiddleware(h, ing);
    middlewares', middlewareNames' := AppendIfPresent(middlewares', middlewareNames', modifier, middlewares, middlewareNames, added);
    added := added + modifier.ToSeq();

    var redirect: Option<Middleware> := None;
    var appRoot := GetStringValue(h.lookup, ing.annotations, AppRoot, "");
    if appRoot == "" {
      redirect := h.frontendRedirect(ing.namespace, ing.name, ing.annotations);
    }
    assert redirect.ToSeq() == FrontendRedirectMiddleware(h, ing);
    middlewares', middlewareNames' := AppendIfPresent(middlewares', middlewareNames', redirect, middlewares, middlewareNames, added);
  }

  /** What the path loop has appended after one more path. */
  lemma PathAppended(h: Helpers, ing: Ingress, rule: Rule, paths: seq<IngressPath>, j: nat,
                     stripPrefix: bool, rewriteTarget: string,
                     start: seq<Middleware>, startNames: seq<string>,
                     middlewares: seq<Middleware>, middlewareNames: seq<string>,
                     middlewares': seq<Middleware>, middlewareNames': seq<string>)
    requires j < |paths|
    requires middlewares == start + PathsMiddlewares(h, ing, rule, paths[..j], stripPrefix, rewriteTarget)
    requires middlewareNames == startNames + References(PathsMiddlewares(h, ing, rule, paths[..j], stripPrefix, rewriteTarget))
    requires middlewares' == middlewares + PathMiddlewares(h, ing, rule, paths[j], stripPrefix, rewriteTarget)
    requires middlewareNames' == middlewareNames + References(PathMiddlewares(h, ing, rule, paths[j], stripPrefix, rewriteTarget))
    ensures middlewares' == start + PathsMiddlewares(h, ing, rule, paths[..j + 1], stripPrefix, rewriteTarget)
    ensures middlewareNames' == startNames + References(PathsMiddlewares(h, ing, rule, paths[..j + 1], stripPrefix, rewriteTarget))
  {
    PathsMiddlewaresStep(h, ing, rule, paths, j, stripPrefix, rewriteTarget);
    Extend(start, startNames,
           PathsMiddlewares(h, ing, rule, paths[..j], stripPrefix, rewriteTarget),
           PathMiddlewares(h, ing, rule, paths[j], stripPrefix, rewriteTarget),
           middlewares, middlewareNames, middlewares', middlewareNames');
  }

  /** What the rule loop has appended after one more rule. */
  lemma RuleAppended(h: Helpers, ing: Ingress, rules: seq<Rule>, i: nat,
                     stripPrefix: bool, rewriteTarget: string,
                     start: seq<Middleware>, startNames: seq<string>,
                     middlewares: seq<Middleware>, middlewareNames: seq<string>,
                     middlewares': seq<Middleware>, middlewareNames': seq<string>)
    requires i < |rules|
    requires middlewares == start + RulesMiddlewares(h, ing, rules[..i], stripPrefix, rewriteTarget)
    requires middlewareNames == startNames + References(RulesMiddlewares(h, ing, rules[..i], stripPrefix, rewriteTarget))
    requires middlewares' == middlewares + PathsMiddlewares(h, ing, rules[i], RulePaths(rules[i]), stripPrefix, rewriteTarget)
    requires middlewareNames' == middlewareNames + References(PathsMiddlewares(h, ing, rules[i], RulePaths(rules[i]), stripPrefix, rewriteTarget))
    ensures middlewares' == start + RulesMiddlewares(h, ing, rules[..i + 1], stripPrefix, rewriteTarget)
    ensures middlewareNames' == startNames + References(RulesMiddlewares(h, ing, rules[..i + 1], stripPrefix, rewriteTarget))
  {
    RulesMiddlewaresStep(h, ing, rules, i, stripPrefix, rewriteTarget);
    Extend(start, startNames,
           RulesMiddlewares(h, ing, rules[..i], stripPrefix, rewriteTarget),
           PathsMiddlewares(h, ing, rules[i], RulePaths(rules[i]), stripPrefix, rewriteTarget),
           middlewares, middlewareNames, middlewares', middlewareNames');
  }

  /** Lines 297-325 for one path: strip-prefix and replace-path-regex for a
      non-empty path, then the app-root redirect; `ok` is false when a
      rewrite target meets the `ReplacePath` rule type on a non-empty path. */
  method ConvertPath(h: Helpers, ing: Ingress, rule: Rule, p: IngressPath, ruleType: string, stripPrefix: bool,
                     middlewares: seq<Middleware>, middlewareNames: seq<string>)
    returns (ok: bool, middlewares': seq<Middleware>, middlewareNames': seq<string>)
    ensures var rewriteTarget := GetStringValue(h.lookup, ing.annotations, RewriteTarget, "");
      ok <==> !(|p.path| > 0 && rewriteTarget != "" && ruleType == ReplacePath)
    ensures var rewriteTarget := GetStringValue(h.lookup, ing.annotations, RewriteTarget, "");
      ok ==> middlewares' == middlewares + PathMiddlewares(h, ing, rule, p, stripPrefix, rewriteTarget)
    ensures var rewriteTarget := GetStringValue(h.lookup, ing.annotations, RewriteTarget, "");
      ok ==> middlewareNames' == middlewareNames + References(PathMiddlewares(h, ing, rule, p, stripPrefix, rewriteTarget))
  {
    ghost var added: seq<Middleware> := [];
    middlewares', middlewareNames' := middlewares, middlewareNames;
    var strip: Option<Middleware> := None;
    var regex: Option<Middleware> := None;
    if |p.path| > 0 {
      if stripPrefix {
        strip := Some(h.stripPrefix(p, rule.host + p.path, ing.namespace));
      }
      var rewriteTarget := GetStringValue(h.lookup, ing.annotations, RewriteTarget, "");
      if rewriteTarget != "" {
        if ruleType == ReplacePath {
          return false, middlewares', middlewareNames';
        }
        regex := Some(h.replacePathRegex(rule, p, ing.namespace, rewriteTarget));
      }
    }
    middlewares', middlewareNames' := AppendIfPresent(middlewares', middlewareNames', strip, middlewares, middlewareNames, added);
    added := added + strip.ToSeq();
    middlewares', middlewareNames' := AppendIfPresent(middlewares', middlewareNames', regex, middlewares, middlewareNames, added);
    added := added + regex.ToSeq();
    var redirect := h.frontendRedirectAppRoot(ing.namespace, ing.name, ing.annotations, rule.host + p.path, p.path);
    middlewares', middlewareNames' := AppendIfPresent(middlewares', middlewareNames', redirect, middlewares, middlewareNames, added);
    ok := true;
  }

  /** One turn of the path loop: `ConvertPath` on `paths[j]`, stated
      against what the loop has appended since `start`. */
  method ConvertPathAt(h: Helpers, ing: Ingress, rule: Rule, paths: seq<IngressPath>, j: nat, ruleType: string,
                       stripPrefix: bool, ghost rewriteTarget: string, ghost start: seq<Middleware>, ghost startNames: seq<string>,
                       middlewares: seq<Middleware>, middlewareNames: seq<string>)
    returns (ok: bool, middlewares': seq<Middleware>, middlewareNames': seq<string>)
    requires j < |paths|
    requires rewriteTarget == GetStringValue(h.lookup, ing.annotations, RewriteTarget, "")
    requires middlewares == start + PathsMiddlewares(h, ing, rule, paths[..j], stripPrefix, rewriteTarget)
    requires middlewareNames == startNames + References(PathsMiddlewares(h, ing, rule, paths[..j], stripPrefix, rewriteTarget))
    ensures !ok ==> rewriteTarget != "" && ruleType == ReplacePath && !AllPathsEmpty(paths)
    ensures ok ==> !(rewriteTarget != "" && ruleType == ReplacePath && |paths[j].path| > 0)
    ensures ok ==> middlewares' == start + PathsMiddlewares(h, ing, rule, paths[..j + 1], stripPrefix, rewriteTarget)
    ensures ok ==> middlewareNames' == startNames + References(PathsMiddlewares(h, ing, rule, paths[..j + 1], stripPrefix, rewriteTarget))
  {
    var m', n';
    ok, m', n' := ConvertPath(h, ing, rule, paths[j], ruleType, stripPrefix, middlewares, middlewareNames);
    if !ok {
      NonEmptyPathFound(paths, j);
      return false, middlewares, middlewareNames;
    }
    PathAppended(h, ing, rule, paths, j, stripPrefix, rewriteTarget, start, startNames,
                 middlewares, middlewareNames, m', n');
    middlewares', middlewareNames' := m', n';
  }

  /** Lines 297-326: the paths of one rule, in order. */
  method ConvertPaths(h: Helpers, ing: Ingress, rule: Rule, ruleType: string, stripPrefix: bool,
                      middlewares: seq<Middleware>, middlewareNames: seq<string>)
    returns (ok: bool, middlewares': seq<Middleware>, middlewareNames': seq<string>)
    ensures var rewriteTarget := GetStringValue(h.lookup, ing.annotations, RewriteTarget, "");
      ok <==> !(rewriteTarget != "" && ruleType == ReplacePath && !AllPathsEmpty(RulePaths(rule)))
    ensures var rewriteTarget := GetStringValue(h.lookup, ing.annotations, RewriteTarget, "");
      ok ==> middlewares' == middlewares + PathsMiddlewares(h, ing, rule, RulePaths(rule), stripPrefix, rewriteTarget)
    ensures var rewriteTarget := GetStringValue(h.lookup, ing.annotations, RewriteTarget, "");
      ok ==> middlewareNames' == middlewareNames + References(PathsMiddlewares(h, ing, rule, RulePaths(rule), stripPrefix, rewriteTarget))
  {
    ghost var rewriteTarget := GetStringValue(h.lookup, ing.annotations, RewriteTarget, "");
    ghost var abortable := rewriteTarget != "" && ruleType == ReplacePath;
    var paths := RulePaths(rule);
    middlewares', middlewareNames' := middlewares, middlewareNames;
    var j := 0;
    while j < |paths|
      invariant 0 <= j <= |paths|
      invariant middlewares' == middlewares + PathsMiddlewares(h, ing, rule, paths[..j], stripPrefix, rewriteTarget)
      invariant middlewareNames' == middlewareNames + References(PathsMiddlewares(h, ing, rule, paths[..j], stripPrefix, rewriteTarget))
      invariant abortable ==> AllPathsEmpty(paths[..j])
    {
      var stepOk, m', n' := ConvertPathAt(h, ing, rule, paths, j, ruleType, stripPrefix, rewriteTarget,
                                          middlewares, middlewareNames, middlewares', middlewareNames');
      if !stepOk {
        return false, middlewares', middlewareNames';
      }
      if abortable {
        AllPathsEmptyExtended(paths, j);
      }
      middlewares', middlewareNames' := m', n';
      j := j + 1;
    }
    assert j == |paths|;
    assert paths[..|paths|] == paths;
    ok := true;
  }

  /** Lines 297-326: every rule, in order. */
  method ConvertRules(h: Helpers, ing: Ingress, ruleType: string, stripPrefix: bool,
                      middlewares: seq<Middleware>, middlewareNames: seq<string>)
    returns (ok: bool, middlewares': seq<Middleware>, middlewareNames': seq<string>)
    ensures var rewriteTarget := GetStringValue(h.lookup, ing.annotations, RewriteTarget, "");
      ok <==> !(rewriteTarget != "" && ruleType == ReplacePath && HasNonEmptyPath(ing.rules))
    ensures var rewriteTarget := GetStringValue(h.lookup, ing.annotations, RewriteTarget, "");
      ok ==> middlewares' == middlewares + RulesMiddlewares(h, ing, ing.rules, stripPrefix, rewriteTarget)
    ensures var rewriteTarget := GetStringValue(h.lookup, ing.annotations, RewriteTarget, "");
      ok ==> middlewareNames' == middlewareNames + References(RulesMiddlewares(h, ing, ing.rules, stripPrefix, rewriteTarget))
  {
    ghost var rewriteTarget := GetStringValue(h.lookup, ing.annotations, RewriteTarget, "");
    ghost var abortable := rewriteTarget != "" && ruleType == ReplacePath;
    var rules := ing.rules;
    middlewares', middlewareNames' := middlewares, middlewareNames;
    var i := 0;
    while i < |rules|
      invariant 0 <= i <= |rules|
      invariant middlewares' == middlewares + RulesMiddlewares(h, ing, rules[..i], stripPrefix, rewriteTarget)
      invariant middlewareNames' == middlewareNames + References(RulesMiddlewares(h, ing, rules[..i], stripPrefix, rewriteTarget))
      invariant abortable ==> !HasNonEmptyPath(rules[..i])
    {
      var stepOk, m', n' := ConvertPaths(h, ing, rules[i], ruleType, stripPrefix, middlewares', middlewareNames');
      if !stepOk {
        NonEmptyRuleFound(rules, i);
        return false, middlewares', middlewareNames';
      }
      if abortable {
        NoNonEmptyPathExtended(rules, i);
      }
      RuleAppended(h, ing, rules, i, stripPrefix, rewriteTarget, middlewares, middlewareNames,
                   middlewares', middlewareNames', m', n');
      middlewares', middlewareNames' := m', n';
      i := i + 1;
    }
    assert i == |rules|;
    assert rules[..|rules|] == rules;
    ok := true;
  }

  /** Lines 328-339: the chain joined into the `router.middlewares`
      annotation when it is not empty, and the middlewares sorted by name. */
  method Finish(ing: Ingress, annotations: Annotations, middlewares: seq<Middleware>, middlewareNames: seq<string>)
    returns (conversion: Conversion)
    ensures conversion.ingress == ing.(annotations :=
      if |middlewareNames| > 0 then annotations[RouterMiddlewares := Join(middlewareNames, ",")] else annotations)
    ensures conversion.middlewares == SortByName(middlewares)
  {
    var annotations' := annotations;
    if |middlewareNames| > 0 {
      annotations' := annotations'[RouterMiddlewares := Join(middlewareNames, ",")];
    }
    var sorted := new Middleware[|middlewares|](k requires 0 <= k < |middlewares| => middlewares[k]);
    assert sorted[..] == middlewares;
    SortInPlace(sorted);
    conversion := Conversion(ing.(annotations := annotations'), sorted[..]);
  }

  /** Lines 244-326: the SSL reference, then the resource-level and the
      per-path middlewares with their references. */
  method CollectMiddlewares(h: Helpers, ing: Ingress) returns (collected: Option<seq<Middleware>>, middlewareNames: seq<string>)
    ensures collected == Synthesized(h, ing)
    ensures collected.Some? ==> middlewareNames == SslReferences(h, ing) + References(collected.value)
  {
    middlewareNames := [];
    var sslRedirect := GetStringValue(h.lookup, ing.annotations, SslRedirect, "");
    if sslRedirect != "" {
      middlewareNames := middlewareNames + [SslMiddlewareRef];
    }
    assert middlewareNames == SslReferences(h, ing);

    var middlewares;
    middlewares, middlewareNames := AppendResourceMiddlewares(h, ing, [], middlewareNames);
    assert middlewares == ResourceMiddlewares(h, ing);
    assert middlewareNames == SslReferences(h, ing) + References(ResourceMiddlewares(h, ing));

    var resolved := ExtractRuleType(h.lookup, ing.annotations);
    if resolved.Failure? {
      return None, middlewareNames;
    }

    var ok;
    ok, middlewares, middlewareNames := ConvertRules(h, ing, resolved.value.ruleType, resolved.value.stripPrefix, middlewares, middlewareNames);
    if !ok {
      return None, middlewareNames;
    }
    ghost var rewriteTarget := GetStringValue(h.lookup, ing.annotations, RewriteTarget, "");
    ghost var rulesMiddlewares := RulesMiddlewares(h, ing, ing.rules, resolved.value.stripPrefix, rewriteTarget);
    assert [] + ResourceMiddlewares(h, ing) == ResourceMiddlewares(h, ing);
    Extend([], SslReferences(h, ing), ResourceMiddlewares(h, ing), rulesMiddlewares,
           ResourceMiddlewares(h, ing), SslReferences(h, ing) + References(ResourceMiddlewares(h, ing)),
           middlewares, middlewareNames);
    collected := Some(middlewares);
  }

  /** `convertIngress` (lines 226-340): the class gate, the entrypoints copy,
      the middlewares and their chain, and the middlewares sorted by name. */
  method ConvertIngress(h: Helpers, ing: Ingress) returns (result: Option<Conversion>)
    ensures result == ConvertedIngress(h, ing)
  {
    var ingressClass := GetStringValue(h.lookup, ing.annotations, IngressClass, "");
    if |ingressClass| > 0 && !Contains(ingressClass, "traefik") {
      return Some(Conversion(ing, []));
    }

    var annotations := ing.annotations;
    var entryPoints := GetStringValue(h.lookup, ing.annotations, FrontendEntryPoints, "");
    if entryPoints != "" {
      annotations := annotations[RouterEntryPoints := entryPoints];
    }

    var collected, middlewareNames := CollectMiddlewares(h, ing);
    if collected.None? {
      return None;
    }
    var conversion := Finish(ing, annotations, collected.value, middlewareNames);
    result := Some(conversion);
  }
}

/** The resources the conversion reads and writes: the Ingress (already in
    its networking.k8s.io/v1 form), its rules and paths, and the Traefik
    Middleware objects it synthesizes. */
module Resources {
  import opened Wrappers

  type Annotations = map<string, string>

  /** One `paths` entry of an HTTP rule; the backend is opaque here. */
  datatype IngressPath = IngressPath(path: string, pathType: Option<string>, backend: string)

  /** A rule; `http` is the pointer `rule.HTTP`, nil when the rule has no
      `http` block. */
  datatype Rule = Rule(host: string, http: Option<seq<IngressPath>>)

  datatype Ingress = Ingress(namespace: string, name: string, annotations: Annotations, rules: seq<Rule>)

  /** The closed set of middleware kinds the builders produce; their
      configuration is carried opaquely in `settings`. */
  datatype MiddlewareKind =
    | BasicAuth | Headers | IPWhiteList | RedirectRegex | ReplacePathRegex | AddPrefix | StripPrefix

  datatype Middleware = Middleware(namespace: string, name: string, kind: MiddlewareKind, settings: Annotations)

  const MiddlewareSuffix: string := "kubernetescrd"
  const SslMiddlewareRef: string := "ssl-redirect@file"
  const RouterEntryPoints: string := "traefik.ingress.kubernetes.io/router.entrypoints"
  const RouterMiddlewares: string := "traefik.ingress.kubernetes.io/router.middlewares"

  /** The reference `<namespace>-<name>@kubernetescrd` that the router
      annotation uses for a synthesized middleware. */
  function Reference(m: Middleware): (ref: string)
    ensures |ref| == |m.namespace| + 1 + |m.name| + 1 + |MiddlewareSuffix|
    ensures ref[..|m.namespace|] == m.namespace && ref[|m.namespace|] == '-'
    ensures ref[|ref| - |MiddlewareSuffix| - 1..] == "@" + MiddlewareSuffix
  {
    m.namespace + "-" + m.name + "@" + MiddlewareSuffix
  }

  /** The static SSL redirect reference is never the reference of a
      synthesized middleware. */
  lemma SslRefIsNotSynthesized(m: Middleware)
    ensures Reference(m) != SslMiddlewareRef
  {
    var ref := Reference(m);
    assert SslMiddlewareRef[|SslMiddlewareRef| - |MiddlewareSuffix| - 1] != '@';
  }

  /** The legacy annotations the conversion reads. Their key strings, and the
      alternative prefixes under which Traefik v1 also accepts them, are
      resolved by `getStringValue`, which is not part of this model: a lookup
      function stands for it. */
  datatype LegacyAnnotation =
    | IngressClass | FrontendEntryPoints | SslRedirect | RequestModifier | AppRoot | RuleType | RewriteTarget

  /** The value of a legacy annotation when it is present. */
  type Lookup = (Annotations, LegacyAnnotation) -> Option<string>

  /** `getStringValue(annotations, key, default)`, as Traefik v1's label
      helper behaves: the value when it is present and non-empty, `default`
      otherwise. An annotation set to `""` therefore never hides the
      default. */
  function GetStringValue(lookup: Lookup, annotations: Annotations, key: LegacyAnnotation, default: string): (v: string)
    ensures v == "" ==> default == ""
    ensures v != default ==> lookup(annotations, key) == Some(v)
    ensures lookup(annotations, key).Some? && lookup(annotations, key).value != "" ==> v == lookup(annotations, key).value
  {
    match lookup(annotations, key)
    case Some(value) => if value != "" then value else default
    case None => default
  }

  /** The paths of a rule as the conversion visits them: none when the rule
      has no `http` block. */
  function RulePaths(rule: Rule): seq<IngressPath>
  {
    if rule.http.Some? then rule.http.value else []
  }
}

/** `expandFileContent` and `convertFile` without the file system: the
    content of a manifest file split on `---`, blank parts dropped, List
    documents holding Ingresses expanded into one document per item, each
    Ingress document converted, and the fragments joined with `---\n`. */
module Manifests {
  import opened Wrappers
  import opened GoStrings
  import opened Items
  import opened Resources
  import opened Compiler

  const Separator: string := "---"
  const FragmentSeparator: string := "---\n"

  /** The parts both loops skip. */
  predicate Blank(part: string) {
    part == "\n" || part == ""
  }

  predicate NonBlank(part: string) {
    !Blank(part)
  }

  /** The non-blank parts, in their order and with their repetitions: a part
      is kept exactly when it is a non-blank part of `parts`. */
  function KeptParts(parts: seq<string>): (kept: seq<string>)
    ensures |kept| <= |parts|
    ensures forall p :: p in kept <==> p in parts && !Blank(p)
  {
    FilterMembers(NonBlank, parts);
    Filter(NonBlank, parts)
  }

  /** The parts of a concatenation are kept part by part, so the order of
      the file is kept. */
  lemma KeptPartsConcat(a: seq<string>, b: seq<string>)
    ensures KeptParts(a + b) == KeptParts(a) + KeptParts(b)
  {
    FilterConcat(NonBlank, a, b);
  }

  /** The last part is kept after the others exactly when it is not blank. */
  lemma KeptPartsLast(parts: seq<string>)
    requires parts != []
    ensures Blank(parts[|parts| - 1]) ==> KeptParts(parts) == KeptParts(parts[..|parts| - 1])
    ensures !Blank(parts[|parts| - 1]) ==> KeptParts(parts) == KeptParts(parts[..|parts| - 1]) + [parts[|parts| - 1]]
  {
    assert KeptParts(parts[..|parts| - 1]) + [] == KeptParts(parts[..|parts| - 1]);
  }

  /** A YAML document decoded into an unstructured object: a List (an
      `items` array) or anything else. */
  datatype Decoded = ListDocument(items: seq<Item>) | SingleDocument

  /** A document decoded with the typed Kubernetes scheme. The legacy
      `extensions/v1beta1` Ingress and the `networking.k8s.io/v1` Ingress
      carry the same fields here. */
  datatype Object = LegacyIngress(legacy: Ingress) | NetworkingIngress(ingress: Ingress) | OtherObject(typeName: string)

  /** The YAML libraries, which are not part of this model, as functions:
      `createUnstructured` with `IsList` and the `items` slice; a copy of a
      List decoded from a text with its items replaced, marshalled; an
      item marshalled; `parseYaml`; `extensionsToNetworking`; and
      `encodeYaml` of the rewritten Ingress (`None` for the nil Ingress of
      an aborted conversion) and of a middleware. */
  datatype Codec = Codec(
    decode: string -> Result<Decoded, string>,
    marshalList: (string, seq<Item>) -> Result<string, string>,
    marshalItem: Item -> Result<string, string>,
    parseYaml: string -> Result<Object, string>,
    toNetworking: Ingress -> Result<Ingress, string>,
    encodeIngress: Option<Ingress> -> Result<string, string>,
    encodeMiddleware: Middleware -> Result<string, string>)

  /** Every element encoded in order; the first failure stops the loop. */
  function EncodeAll<T>(encode: T -> Result<string, string>, xs: seq<T>): (r: Result<seq<string>, string>)
    ensures r.Success? <==> forall i :: 0 <= i < |xs| ==> encode(xs[i]).Success?
    ensures r.Success? ==> |r.value| == |xs| && forall i :: 0 <= i < |xs| ==> r.value[i] == encode(xs[i]).value
    ensures r.Failure? ==> exists i :: 0 <= i < |xs| && encode(xs[i]) == Failure(r.error)
  {
    if xs == [] then Success([])
    else match EncodeAll(encode, xs[..|xs| - 1])
      case Failure(e) => Failure(e)
      case Success(init) =>
        match encode(xs[|xs| - 1])
        case Failure(e) => Failure(e)
        case Success(last) => Success(init + [last])
  }

  /** Once the loop has failed on a prefix, it has failed with that error. */
  lemma {:induction false} EncodeAllStopsAtFailure<T>(encode: T -> Result<string, string>, xs: seq<T>, i: nat)
    requires i <= |xs| && EncodeAll(encode, xs[..i]).Failure?
    ensures EncodeAll(encode, xs) == EncodeAll(encode, xs[..i])
    decreases |xs| - i
  {
    if i < |xs| {
      var init := xs[..|xs| - 1];
      assert init[..i] == xs[..i];
      EncodeAllStopsAtFailure(encode, init, i);
    } else {
      assert xs[..i] == xs;
    }
  }

  /** The `for _, elt := range ...` loops that encode and append. */
  method EncodeEach<T>(encode: T -> Result<string, string>, xs: seq<T>) returns (r: Result<seq<string>, string>)
    ensures r == EncodeAll(encode, xs)
  {
    var encoded: seq<string> := [];
    var i := 0;
    while i < |xs|
      invariant 0 <= i <= |xs|
      invariant EncodeAll(encode, xs[..i]) == Success(encoded)
    {
      assert xs[..i + 1][..i] == xs[..i];
      var e := encode(xs[i]);
      if e.Failure? {
        EncodeAllStopsAtFailure(encode, xs, i + 1);
        return Failure(e.error);
      }
      encoded := encoded + [e.value];
      i := i + 1;
    }
    assert xs[..i] == xs;
    r := Success(encoded);
  }

  /** Lines 143-192 for one non-blank part, whose List-ness is decided by
      decoding `source`: a part that is not a List, or a List with no
      Ingress, is kept verbatim; otherwise the remaining items as one List
      (when there are any) and then each Ingress item on its own. */
  function ExpandPart(codec: Codec, source: string, part: string): Result<seq<string>, string>
  {
    match codec.decode(source)
    case Failure(e) => Failure(e)
    case Success(SingleDocument) => Success([part])
    case Success(ListDocument(items)) =>
      if |items| == |ToKeep(items)| then Success([part])
      else
        var list := if |ToKeep(items)| > 0 then codec.marshalList(source, ToKeep(items)) else Success("");
        if list.Failure? then Failure(list.error)
        else match EncodeAll(codec.marshalItem, ToConvert(items))
          case Failure(e) => Failure(e)
          case Success(converted) => Success((if |ToKeep(items)| > 0 then [list.value] else []) + converted)
  }

  /** The fragments of all parts, each List decoded from its own part; the
      first failure stops the loop. */
  function ExpandParts(codec: Codec, parts: seq<string>): Result<seq<string>, string>
  {
    if parts == [] then Success([])
    else match ExpandParts(codec, parts[..|parts| - 1])
      case Failure(e) => Failure(e)
      case Success(init) =>
        var part := parts[|parts| - 1];
        if Blank(part) then Success(init)
        else match ExpandPart(codec, part, part)
          case Failure(e) => Failure(e)
          case Success(more) => Success(init + more)
  }

  lemma {:induction false} ExpandPartsStopsAtFailure(codec: Codec, parts: seq<string>, i: nat)
    requires i <= |parts| && ExpandParts(codec, parts[..i]).Failure?
    ensures ExpandParts(codec, parts) == ExpandParts(codec, parts[..i])
    decreases |parts| - i
  {
    if i < |parts| {
      var init := parts[..|parts| - 1];
      assert init[..i] == parts[..i];
      ExpandPartsStopsAtFailure(codec, init, i);
    } else {
      assert parts[..i] == parts;
    }
  }

  /** `expandFileContent` on the file's content. */
  function ExpandFile(codec: Codec, content: string): Result<string, string>
  {
    match ExpandParts(codec, Split(content, Separator))
    case Failure(e) => Failure(e)
    case Success(fragments) => Success(Join(fragments, FragmentSeparator))
  }

  /** The fragments of all parts as line 150 computes them: every part's
      List-ness is decided by decoding the whole `content`. */
  function ExpandPartsAsWritten(codec: Codec, content: string, parts: seq<string>): Result<seq<string>, string>
  {
    if parts == [] then Success([])
    else match ExpandPartsAsWritten(codec, content, parts[..|parts| - 1])
      case Failure(e) => Failure(e)
      case Success(init) =>
        var part := parts[|parts| - 1];
        if Blank(part) then Success(init)
        else match ExpandPart(codec, content, part)
          case Failure(e) => Failure(e)
          case Success(more) => Success(init + more)
  }

  /** Lines 143-192 for one non-blank part, whose List-ness is decided by
      decoding `source` (the whole file at line 150). */
  method ExpandPartContent(codec: Codec, source: string, part: string) returns (r: Result<seq<string>, string>)
    ensures r == ExpandPart(codec, source, part)
  {
    var listObj := codec.decode(source);
    if listObj.Failure? {
      return Failure(listObj.error);
    }
    if listObj.value.SingleDocument? {
      return Success([part]);
    }
    var items := listObj.value.items;
    var toKeep, toConvert := ExtractItems(items);
    if |items| == |toKeep| {
      return Success([part]);
    }
    var fragments: seq<string> := [];
    if |toKeep| > 0 {
      var m := codec.marshalList(source, toKeep);
      if m.Failure? {
        return Failure(m.error);
      }
      fragments := fragments + [m.value];
    }
    var converted := EncodeEach(codec.marshalItem, toConvert);
    if converted.Failure? {
      return Failure(converted.error);
    }
    r := Success(fragments + converted.value);
    assert codec.decode(source) == Success(ListDocument(items));
    assert fragments == (if |ToKeep(items)| > 0 then [codec.marshalList(source, ToKeep(items)).value] else []);
    assert EncodeAll(codec.marshalItem, ToConvert(items)) == converted;
  }

  /** `expandFileContent` (lines 137-198) after the file is read. */
  method ExpandFileContent(codec: Codec, content: string) returns (r: Result<string, string>)
    ensures r == ExpandFile(codec, content)
  {
    var parts := Split(content, Separator);
    var fragments: seq<string> := [];
    var i := 0;
    while i < |parts|
      invariant 0 <= i <= |parts|
      invariant ExpandParts(codec, parts[..i]) == Success(fragments)
    {
      assert parts[..i + 1][..i] == parts[..i];
      var part := parts[i];
      if part == "\n" || part == "" {
        i := i + 1;
        continue;
      }
      var more := ExpandPartContent(codec, part, part);
      if more.Failure? {
        ExpandPartsStopsAtFailure(codec, parts, i + 1);
        return Failure(more.error);
      }
      fragments := fragments + more.value;
      i := i + 1;
    }
    assert parts[..i] == parts;
    r := Success(Join(fragments, FragmentSeparator));
  }

  /** The fragments for one converted Ingress: the rewritten Ingress, then
      its middlewares in the order `convertIngress` returned them. An
      aborted conversion hands the nil Ingress to the encoder and has no
      middleware. */
  function EmitConversion(codec: Codec, h: Helpers, ing: Ingress): Result<seq<string>, string>
  {
    var converted := ConvertedIngress(h, ing);
    var newIngress := if converted.Some? then Some(converted.value.ingress) else None;
    var middlewares := if converted.Some? then converted.value.middlewares else [];
    match codec.encodeIngress(newIngress)
    case Failure(e) => Failure(e)
    case Success(yml) =>
      match EncodeAll(codec.encodeMiddleware, middlewares)
      case Failure(e) => Failure(e)
      case Success(ymls) => Success([yml] + ymls)
  }

  /** Lines 82-131 for one non-blank part: a List, a part the typed decoder
      rejects and a part that is not an Ingress are kept verbatim; an
      Ingress is converted. */
  function ConvertPart(codec: Codec, h: Helpers, part: string): Result<seq<string>, string>
  {
    match codec.decode(part)
    case Failure(e) => Failure(e)
    case Success(ListDocument(_)) => Success([part])
    case Success(SingleDocument) =>
      match codec.parseYaml(part)
      case Failure(_) => Success([part])
      case Success(OtherObject(_)) => Success([part])
      case Success(NetworkingIngress(ing)) => EmitConversion(codec, h, ing)
      case Success(LegacyIngress(legacy)) =>
        match codec.toNetworking(legacy)
        case Failure(e) => Failure(e)
        case Success(ing) => EmitConversion(codec, h, ing)
  }

  function ConvertParts(codec: Codec, h: Helpers, parts: seq<string>): Result<seq<string>, string>
  {
    if parts == [] then Success([])
    else match ConvertParts(codec, h, parts[..|parts| - 1])
      case Failure(e) => Failure(e)
      case Success(init) =>
        var part := parts[|parts| - 1];
        if Blank(part) then Success(init)
        else match ConvertPart(codec, h, part)
          case Failure(e) => Failure(e)
          case Success(more) => Success(init + more)
  }

  lemma {:induction false} ConvertPartsStopsAtFailure(codec: Codec, h: Helpers, parts: seq<string>, i: nat)
    requires i <= |parts| && ConvertParts(codec, h, parts[..i]).Failure?
    ensures ConvertParts(codec, h, parts) == ConvertParts(codec, h, parts[..i])
    decreases |parts| - i
  {
    if i < |parts| {
      var init := parts[..|parts| - 1];
      assert init[..i] == parts[..i];
      ConvertPartsStopsAtFailure(codec, h, init, i);
    } else {
      assert parts[..i] == parts;
    }
  }

  /** `convertFile`: the text written to the destination file. */
  function ConvertFile(codec: Codec, h: Helpers, content: string): Result<string, string>
  {
    match ExpandFile(codec, content)
    case Failure(e) => Failure(e)
    case Success(expanded) =>
      match ConvertParts(codec, h, Split(expanded, Separator))
      case Failure(e) => Failure(e)
      case Success(fragments) => Success(Join(fragments, FragmentSeparator))
  }

  /** Lines 108-131 for an Ingress. */
  method EmitConversionContent(codec: Codec, h: Helpers, ing: Ingress) returns (r: Result<seq<string>, string>)
    ensures r == EmitConversion(codec, h, ing)
  {
    var converted := ConvertIngress(h, ing);
    var newIngress := if converted.Some? then Some(converted.value.ingress) else None;
    var middlewares := if converted.Some? then converted.value.middlewares else [];
    var yml := codec.encodeIngress(newIngress);
    if yml.Failure? {
      return Failure(yml.error);
    }
    var ymls := EncodeEach(codec.encodeMiddleware, middlewares);
    if ymls.Failure? {
      return Failure(ymls.error);
    }
    r := Success([yml.value] + ymls.value);
  }

  /** Lines 82-131 for one non-blank part. */
  method ConvertPartContent(codec: Codec, h: Helpers, part: string) returns (r: Result<seq<string>, string>)
    ensures r == ConvertPart(codec, h, part)
  {
    var unstruct := codec.decode(part);
    if unstruct.Failure? {
      return Failure(unstruct.error);
    }
    if unstruct.value.ListDocument? {
      return Success([part]);
    }
    var parsed := codec.parseYaml(part);
    if parsed.Failure? {
      return Success([part]);
    }
    var ing: Ingress;
    match parsed.value {
      case LegacyIngress(legacy) =>
        var networking := codec.toNetworking(legacy);
        if networking.Failure? {
          return Failure(networking.error);
        }
        ing := networking.value;
      case NetworkingIngress(obj) =>
        ing := obj;
      case OtherObject(_) =>
        return Success([part]);
    }
    r := EmitConversionContent(codec, h, ing);
  }

  /** Lines 80-132: the loop over the parts of the expanded content. */
  method ConvertPartsContent(codec: Codec, h: Helpers, parts: seq<string>) returns (r: Result<seq<string>, string>)
    ensures r == ConvertParts(codec, h, parts)
  {
    var fragments: seq<string> := [];
    var i := 0;
    while i < |parts|
      invariant 0 <= i <= |parts|
      invariant ConvertParts(codec, h, parts[..i]) == Success(fragments)
    {
      assert parts[..i + 1][..i] == parts[..i];
      var part := parts[i];
      if part == "\n" || part == "" {
        i := i + 1;
        continue;
      }
      var more := ConvertPartContent(codec, h, part);
      if more.Failure? {
        ConvertPartsStopsAtFailure(codec, h, parts, i + 1);
        return Failure(more.error);
      }
      fragments := fragments + more.value;
      i := i + 1;
    }
    assert parts[..i] == parts;
    r := Success(fragments);
  }

  /** `convertFile` (lines 69-135) without the directory creation and the
      file write: the expanded content converted part by part. */
  method ConvertFileContent(codec: Codec, h: Helpers, content: string) returns (r: Result<string, string>)
    ensures r == ConvertFile(codec, h, content)
  {
    var expanded := ExpandFileContent(codec, content);
    if expanded.Failure? {
      return Failure(expanded.error);
    }
    var fragments := ConvertPartsContent(codec, h, Split(expanded.value, Separator));
    if fragments.Failure? {
      return Failure(fragments.error);
    }
    r := Success(Join(fragments.value, FragmentSeparator));
  }
}

/** What the split/filter/join loops promise: blank parts vanish, parts
    without a List or an Ingress come back verbatim and in order, a List
    with Ingresses is expanded into one fragment per Ingress, and a
    converted Ingress yields its own fragment followed by one per
    middleware. */
module ManifestProperties {
  import opened Wrappers
  import opened GoStrings
  import opened Items
  import opened Resources
  import opened Compiler
  import opened Manifests

  /** Lines 158-192: a List part with no Ingress is kept verbatim; otherwise
      it becomes the remaining items as one List (when there are any),
      followed by the Ingress items one by one, in their order. */
  lemma ExpandedListLayout(codec: Codec, source: string, part: string, items: seq<Item>)
    requires codec.decode(source) == Success(ListDocument(items))
    requires ExpandPart(codec, source, part).Success?
    ensures var fragments := ExpandPart(codec, source, part).value;
      && (ToConvert(items) == [] ==> fragments == [part])
      && (ToConvert(items) != [] ==>
            var offset := if |ToKeep(items)| > 0 then 1 else 0;
            && |fragments| == offset + |ToConvert(items)|
            && (offset == 1 ==> fragments[0] == codec.marshalList(source, ToKeep(items)).value)
            && forall k :: 0 <= k < |ToConvert(items)| ==> fragments[offset + k] == codec.marshalItem(ToConvert(items)[k]).value)
  {
    PartitionSizes(items);
    NothingToConvert(items);
  }

  /** When no part is a List, every non-blank part comes back verbatim and
      in order. */
  lemma {:induction false} NoListPassesThrough(codec: Codec, parts: seq<string>)
    requires forall i :: 0 <= i < |parts| && !Blank(parts[i]) ==> codec.decode(parts[i]) == Success(SingleDocument)
    ensures ExpandParts(codec, parts) == Success(KeptParts(parts))
  {
    if parts != [] {
      var init := parts[..|parts| - 1];
      var last := parts[|parts| - 1];
      assert forall i :: 0 <= i < |init| ==> init[i] == parts[i];
      NoListPassesThrough(codec, init);
      KeptPartsLast(parts);
      if !Blank(last) {
        assert ExpandPart(codec, last, last) == Success([last]);
      }
    }
  }

  /** Each Ingress item of a List part ends up, marshalled on its own,
      among the fragments of the file. */
  lemma {:induction false} ListPartExpanded(codec: Codec, parts: seq<string>, i: nat, items: seq<Item>, x: Item)
    requires i < |parts| && !Blank(parts[i])
    requires codec.decode(parts[i]) == Success(ListDocument(items))
    requires x in ToConvert(items)
    requires ExpandParts(codec, parts).Success?
    ensures codec.marshalItem(x).Success? && codec.marshalItem(x).value in ExpandParts(codec, parts).value
  {
    var init := parts[..|parts| - 1];
    var last := parts[|parts| - 1];
    ExpandPartsLast(codec, parts);
    if i == |parts| - 1 {
      ListItemExpanded(codec, last, items, x);
    } else {
      assert init[i] == parts[i];
      ListPartExpanded(codec, init, i, items, x);
    }
  }

  /** The fragments of a file are those of all but its last part, then
      those of its last part. */
  lemma ExpandPartsLast(codec: Codec, parts: seq<string>)
    requires parts != [] && ExpandParts(codec, parts).Success?
    ensures var init := parts[..|parts| - 1];
      var last := parts[|parts| - 1];
      && ExpandParts(codec, init).Success?
      && (Blank(last) ==> ExpandParts(codec, parts) == ExpandParts(codec, init))
      && (!Blank(last) ==> ExpandPart(codec, last, last).Success?)
      && (!Blank(last) ==> ExpandParts(codec, parts).value == ExpandParts(codec, init).value + ExpandPart(codec, last, last).value)
  {
  }

  /** Each Ingress item of a List part is among that part's fragments. */
  lemma ListItemExpanded(codec: Codec, part: string, items: seq<Item>, x: Item)
    requires codec.decode(part) == Success(ListDocument(items))
    requires x in ToConvert(items)
    requires ExpandPart(codec, part, part).Success?
    ensures codec.marshalItem(x).Success? && codec.marshalItem(x).value in ExpandPart(codec, part, part).value
  {
    PartitionSizes(items);
    var k :| 0 <= k < |ToConvert(items)| && ToConvert(items)[k] == x;
    var converted := EncodeAll(codec.marshalItem, ToConvert(items));
    assert converted.Success?;
    var prefix := if |ToKeep(items)| > 0 then [codec.marshalList(part, ToKeep(items)).value] else [];
    assert ExpandPart(codec, part, part).value == prefix + converted.value;
    assert (prefix + converted.value)[|prefix| + k] == converted.value[k];
  }

  /** Line 150 as written decides every part's List-ness by decoding the
      whole file: when that decodes to a single object, every non-blank part
      comes back verbatim, List or not. */
  lemma {:induction false} AsWrittenIgnoresPartLists(codec: Codec, content: string, parts: seq<string>)
    requires codec.decode(content) == Success(SingleDocument)
    ensures ExpandPartsAsWritten(codec, content, parts) == Success(KeptParts(parts))
  {
    if parts != [] {
      var init := parts[..|parts| - 1];
      var last := parts[|parts| - 1];
      AsWrittenIgnoresPartLists(codec, content, init);
      KeptPartsLast(parts);
      if !Blank(last) {
        assert ExpandPart(codec, content, last) == Success([last]);
      }
    }
  }

  /** A codec under which the part `b` is a List holding one Ingress and
      every other text is a single object. */
  function ServiceThenIngressList(): Codec
  {
    var ingressItem := Item("networking.k8s.io/v1", "Ingress", "");
    Codec(
      s => if s == "b" then Success(ListDocument([ingressItem])) else Success(SingleDocument),
      (s, items) => Success("list"),
      x => Success("ingress"),
      s => Failure("not parsed"),
      ing => Success(ing),
      o => Failure("not encoded"),
      m => Failure("not encoded"))
  }

  /** A file of a Service `a` followed by a List `b` holding one Ingress:
      decoded as a whole it reads as its first document, so as written the
      List is passed through unexpanded, while decoding each part expands
      it. */
  lemma LaterListNotExpandedAsWritten()
    ensures ExpandPartsAsWritten(ServiceThenIngressList(), "a---b", ["a", "b"]) == Success(["a", "b"])
    ensures ExpandParts(ServiceThenIngressList(), ["a", "b"]) == Success(["a", "ingress"])
  {
    var codec := ServiceThenIngressList();
    var ingressItem := Item("networking.k8s.io/v1", "Ingress", "");
    assert codec.decode("b") == Success(ListDocument([ingressItem]));
    assert IsIngressItem(ingressItem);
    assert [ingressItem][..0] == [];
    assert ToKeep([ingressItem]) == [];
    assert ToConvert([ingressItem]) == [ingressItem];
    assert ["a", "b"][..1] == ["a"];
    assert ["a"][..0] == [];
    assert "a" != "b" && "a---b" != "b";
    assert !Blank("a") && !Blank("b");
    assert codec.decode("a---b") == Success(SingleDocument);
    assert codec.decode("a") == Success(SingleDocument);
    assert [] + ["a"] == ["a"];
    assert ["a"] + ["b"] == ["a", "b"];
    assert ["a"] + ["ingress"] == ["a", "ingress"];
    assert ExpandPart(codec, "a---b", "a") == Success(["a"]);
    assert ExpandPartsAsWritten(codec, "a---b", []) == Success([]);
    assert ExpandPartsAsWritten(codec, "a---b", ["a"]) == Success(["a"]);
    assert ExpandPart(codec, "a---b", "b") == Success(["b"]);
    assert ExpandParts(codec, ["a"]) == Success(["a"]);
    assert EncodeAll(codec.marshalItem, []) == Success([]);
    assert [] + ["ingress"] == ["ingress"];
    assert EncodeAll(codec.marshalItem, [ingressItem]) == Success(["ingress"]);
    assert ExpandPart(codec, "b", "b") == Success(["ingress"]);
  }

  /** Lines 92-116: a List, a part the typed decoder rejects and an object
      that is not an Ingress are kept verbatim. */
  lemma NonIngressPassesThrough(codec: Codec, h: Helpers, part: string)
    requires codec.decode(part).Success?
    requires || codec.decode(part).value.ListDocument?
             || codec.parseYaml(part).Failure?
             || codec.parseYaml(part).value.OtherObject?
    ensures ConvertPart(codec, h, part) == Success([part])
  {
  }

  /** Lines 118-131: a converted Ingress yields the rewritten Ingress first
      and then one fragment per middleware, in the order `convertIngress`
      returned them (sorted by name). */
  lemma ConvertedIngressLayout(codec: Codec, h: Helpers, ing: Ingress)
    requires ConvertedIngress(h, ing).Some?
    requires EmitConversion(codec, h, ing).Success?
    ensures var c := ConvertedIngress(h, ing).value;
      var fragments := EmitConversion(codec, h, ing).value;
      && |fragments| == 1 + |c.middlewares|
      && fragments[0] == codec.encodeIngress(Some(c.ingress)).value
      && forall k :: 0 <= k < |c.middlewares| ==> fragments[1 + k] == codec.encodeMiddleware(c.middlewares[k]).value
  {
  }

  /** An aborted conversion still hands the encoder its nil Ingress and
      adds no middleware fragment. */
  lemma AbortedIngressLayout(codec: Codec, h: Helpers, ing: Ingress)
    requires ConvertedIngress(h, ing).None?
    ensures EmitConversion(codec, h, ing) ==
      match codec.encodeIngress(None)
      case Failure(e) => Failure(e)
      case Success(yml) => Success([yml])
  {
    assert EncodeAll(codec.encodeMiddleware, []) == Success([]);
    if codec.encodeIngress(None).Success? {
      var yml := codec.encodeIngress(None).value;
      assert [yml] + [] == [yml];
    }
  }

  /** When no part holds an Ingress, converting leaves every non-blank part
      verbatim and in order. */
  lemma {:induction false} NoIngressPassesThrough(codec: Codec, h: Helpers, parts: seq<string>)
    requires forall i :: 0 <= i < |parts| && !Blank(parts[i]) ==>
      && codec.decode(parts[i]).Success?
      && (|| codec.decode(parts[i]).value.ListDocument?
          || codec.parseYaml(parts[i]).Failure?
          || codec.parseYaml(parts[i]).value.OtherObject?)
    ensures ConvertParts(codec, h, parts) == Success(KeptParts(parts))
  {
    if parts != [] {
      var init := parts[..|parts| - 1];
      assert forall i :: 0 <= i < |init| ==> init[i] == parts[i];
      NoIngressPassesThrough(codec, h, init);
      KeptPartsLast(parts);
      var last := parts[|parts| - 1];
      if !Blank(last) {
        NonIngressPassesThrough(codec, h, last);
        assert ConvertParts(codec, h, parts) == Success(KeptParts(init) + [last]);
      } else {
        assert ConvertParts(codec, h, parts) == Success(KeptParts(init));
      }
    }
  }
}

// The C code generator (CExporter/CExporter.cs): each exported structure or named
// collection becomes a C definition. An array is written element by element, one
// initialiser per line, with a comma after every initialiser but the last.
module CExport {
  import opened Wrappers
  import opened Words
  import opened Text
  import opened Data
  import opened Polys
  import opened CFormat

  /** Whether a definition is visible outside its translation unit (CExporter/Linkage.cs). */
  datatype Linkage = ExternLinkage | StaticLinkage

  function LinkagePrefix(linkage: Linkage): string
  {
    if linkage == StaticLinkage then "static " else ""
  }

  /** What ends every initialiser but the last: `AppendLine(",")`. */
  const ItemSeparator: string := "," + NewLine

  /** What follows the declarator of an array, up to its first initialiser. */
  const ArrayOpening: string := "[] =" + NewLine + "{" + NewLine

  /** What follows the last initialiser: a line break, then the closing line. */
  const Closing: string := NewLine + "};" + NewLine

  /** An array definition: the declarator, then the initialisers inside braces, one per line. */
  function ArrayText(decl: string, inits: seq<string>): string
  {
    decl + ArrayOpening + Join(inits, ItemSeparator) + Closing
  }

  /** A structure definition: the declarator, then one field per line inside braces. */
  function StructText(decl: string, fields: seq<string>): string
  {
    decl + " =" + NewLine + "{" + NewLine + Join(fields, ItemSeparator) + Closing
  }

  /** The text between an array's opening brace line and its closing line, for a declarator of `declLength` characters. */
  function ArrayBody(text: string, declLength: nat): string
  {
    if declLength + |ArrayOpening| <= |text| - |Closing| then text[declLength + |ArrayOpening|..|text| - |Closing|] else ""
  }

  /**
   * The initialisers can be read back from an array definition: splitting the text between
   * the braces at the line-ending commas gives them all, in order, when none spans lines.
   */
  lemma ArrayTextReadBack(decl: string, inits: seq<string>)
    requires |inits| >= 1 && forall i :: 0 <= i < |inits| ==> Lacks(inits[i], '\n')
    ensures Split(ArrayBody(ArrayText(decl, inits), |decl|), ItemSeparator) == inits
  {
    var body := Join(inits, ItemSeparator);
    var text := ArrayText(decl, inits);
    assert text == (decl + ArrayOpening) + body + Closing;
    assert ArrayBody(text, |decl|) == body;
    assert FirstAt(ItemSeparator, 2);
    SplitJoin(inits, ItemSeparator, 2);
  }

  /** No comma after the last initialiser: the text ends with it, a line break and the closing line. */
  lemma ArrayTextEnd(decl: string, inits: seq<string>)
    requires |inits| >= 1
    ensures var tail := inits[|inits| - 1] + Closing;
      var text := ArrayText(decl, inits);
      |tail| <= |text| && text[|text| - |tail|..] == tail
  {
    var last := inits[|inits| - 1];
    var text := ArrayText(decl, inits);
    var front := if |inits| == 1 then "" else Join(inits[..|inits| - 1], ItemSeparator) + ItemSeparator;
    if |inits| > 1 {
      JoinSnoc(inits[..|inits| - 1], ItemSeparator, last);
      assert inits[..|inits| - 1] + [last] == inits;
    }
    assert Join(inits, ItemSeparator) == front + last;
    assert text == (decl + ArrayOpening + front) + (last + Closing);
  }

  // ---------------------------------------------------------------------------------
  // The element loop

  /** The initialiser of each element, or the failure of the first element that has none. */
  function Initialisers<T>(elems: seq<T>, init: T -> Result<string>): (r: Result<seq<string>>)
    ensures r.Ok? <==> forall i :: 0 <= i < |elems| ==> init(elems[i]).Ok?
    ensures r.Ok? ==> |r.value| == |elems| && forall i :: 0 <= i < |elems| ==> init(elems[i]) == Ok(r.value[i])
    ensures r.Err? ==> exists k :: 0 <= k < |elems| && init(elems[k]) == Err(r.error)
  {
    if elems == [] then Ok([])
    else
      var first :- init(elems[0]);
      var rest := Initialisers(elems[1..], init);
      assert forall i :: 1 <= i < |elems| ==> elems[i] == elems[1..][i - 1];
      Consed(first, rest)
  }

  /** Collecting the initialisers of two runs of elements one after the other. */
  lemma {:induction false} InitialisersAppend<T>(a: seq<T>, b: seq<T>, init: T -> Result<string>)
    ensures Initialisers(a + b, init)
      == if Initialisers(a, init).Err? then Err(Initialisers(a, init).error)
         else Prepended(Initialisers(a, init).value, Initialisers(b, init))
  {
    if a == [] {
      assert a + b == b;
      PrependedNothing(Initialisers(b, init));
    } else {
      assert (a + b)[0] == a[0] && (a + b)[1..] == a[1..] + b;
      InitialisersAppend(a[1..], b, init);
      if init(a[0]).Ok? && Initialisers(a[1..], init).Ok? {
        var p := Initialisers(a[1..], init).value;
        var rb := Initialisers(b, init);
        if rb.Ok? {
          assert [init(a[0]).value] + (p + rb.value) == ([init(a[0]).value] + p) + rb.value;
        }
      }
    }
  }

  /** One more element, as the loop sees it: its initialiser joins the ones before it. */
  lemma InitialisersSnoc<T>(elems: seq<T>, i: nat, init: T -> Result<string>, done: seq<string>)
    requires i < |elems| && Initialisers(elems[..i], init) == Ok(done) && init(elems[i]).Ok?
    ensures Initialisers(elems[..i + 1], init) == Ok(done + [init(elems[i]).value])
  {
    var x := elems[i];
    assert elems[..i + 1] == elems[..i] + [x];
    InitialisersAppend(elems[..i], [x], init);
    assert [x][0] == x && [x][1..] == [];
    assert Initialisers([x][1..], init) == Ok([]);
    assert Initialisers([x], init) == Consed(init(x).value, Ok([]));
    assert [init(x).value] + [] == [init(x).value];
  }

  /** An element without an initialiser: its failure is the failure of the whole run. */
  lemma InitialisersStop<T>(elems: seq<T>, i: nat, init: T -> Result<string>, done: seq<string>)
    requires i < |elems| && Initialisers(elems[..i], init) == Ok(done) && init(elems[i]).Err?
    ensures Initialisers(elems, init) == Err(init(elems[i]).error)
  {
    assert elems == elems[..i] + elems[i..];
    InitialisersAppend(elems[..i], elems[i..], init);
    assert elems[i..][0] == elems[i];
  }

  /** The array definition of `elems`, or the failure of the first element that has no initialiser. */
  function ArrayDefinition<T>(decl: string, elems: seq<T>, init: T -> Result<string>): Result<string>
  {
    var inits :- Initialisers(elems, init);
    Ok(ArrayText(decl, inits))
  }

  /** The text written so far after `done` initialisers of an array, the last one followed by its comma. */
  function Written(decl: string, done: seq<string>): string
  {
    decl + ArrayOpening + (if done == [] then "" else Join(done, ItemSeparator) + ItemSeparator)
  }

  /** Appending the next initialiser after the ones written so far. */
  lemma WrittenNext(decl: string, done: seq<string>, item: string)
    ensures Written(decl, done) + item == decl + ArrayOpening + Join(done + [item], ItemSeparator)
  {
    if done == [] {
      assert done + [item] == [item];
    } else {
      JoinSnoc(done, ItemSeparator, item);
    }
  }

  /** One step of an element loop over known initialisers: the separator, or the closing line after the last. */
  lemma WrittenStep(decl: string, lines: seq<string>, i: nat)
    requires i < |lines|
    ensures i + 1 < |lines| ==> Written(decl, lines[..i]) + lines[i] + ItemSeparator == Written(decl, lines[..i + 1])
    ensures i + 1 == |lines| ==> Written(decl, lines[..i]) + lines[i] + Closing == ArrayText(decl, lines)
  {
    WrittenNext(decl, lines[..i], lines[i]);
    assert lines[..i] + [lines[i]] == lines[..i + 1];
    if i + 1 == |lines| {
      assert lines[..i + 1] == lines;
    }
  }

  /**
   * The `for (;;)` loop of the array exports: each element's initialiser, a comma and a
   * line break after each but the last, a line break after the last, then the closing line.
   */
  method WriteArray<T>(decl: string, elems: seq<T>, init: T -> Result<string>) returns (r: Result<string>)
    requires |elems| > 0
    ensures r == ArrayDefinition(decl, elems, init)
  {
    var sb := decl + ArrayOpening;
    var i := 0;
    ghost var done: seq<string> := [];
    assert elems[..0] == [];
    while true
      invariant 0 <= i < |elems|
      invariant Initialisers(elems[..i], init) == Ok(done)
      invariant sb == Written(decl, done)
      decreases |elems| - i
    {
      var item := init(elems[i]);
      if item.Err? {
        InitialisersStop(elems, i, init, done);
        return Err(item.error);
      }
      InitialisersSnoc(elems, i, init, done);
      WrittenNext(decl, done, item.value);
      sb := sb + item.value;
      done := done + [item.value];
      i := i + 1;
      if i >= |elems| {
        assert elems[..i] == elems;
        return Ok(sb + Closing);
      }
      sb := sb + ItemSeparator;
    }
  }

  // ---------------------------------------------------------------------------------
  // References and names

  /** The name of the instance a reference denotes; null for a null reference. */
  function NameOf(h: seq<Entity>, r: Ref): Option<string>
  {
    if r.Ptr? && r.id < |h| then h[r.id].name else None
  }

  /** The number of elements of the collection a reference denotes (`Count`). */
  function ItemCount(h: seq<Entity>, r: Ref): nat
  {
    if r.Ptr? && r.id < |h| && h[r.id].Collection? then Count(h[r.id].items) else 0
  }

  /** A field naming an array: "NULL", or the array's name. */
  function ArrayField(h: seq<Entity>, r: Ref): string
  {
    if r.Null? then "NULL" else NameText(NameOf(h, r))
  }

  /** A field pointing to a structure: "NULL", or the address of the named structure. */
  function PointerField(h: seq<Entity>, r: Ref): string
  {
    if r.Null? then "NULL" else "&" + NameText(NameOf(h, r))
  }

  /** A count field: 0 for a null array, otherwise ARRAYSIZE of the array's name. */
  function ArraySize(h: seq<Entity>, r: Ref): string
  {
    if r.Null? then "0" else "ARRAYSIZE(" + NameText(NameOf(h, r)) + ")"
  }

  /** ValidateName on a name. */
  function CheckName(name: Option<string>): (r: Result<()>)
    ensures r.Ok? <==> ValidName(name)
  {
    if ValidName(name) then Ok(()) else Err(InvalidNameError(name))
  }

  /** ValidateName on the name of every non-null reference, in order; the first invalid name fails. */
  function CheckNames(h: seq<Entity>, refs: seq<Ref>): (r: Result<()>)
    ensures r.Ok? <==> forall i :: 0 <= i < |refs| ==> refs[i].Ptr? ==> ValidName(NameOf(h, refs[i]))
    ensures r.Err? ==> exists i :: 0 <= i < |refs| && refs[i].Ptr? && r.error == InvalidNameError(NameOf(h, refs[i]))
  {
    if refs == [] then Ok(())
    else if refs[0].Ptr? && !ValidName(NameOf(h, refs[0])) then Err(InvalidNameError(NameOf(h, refs[0])))
    else
      assert forall i :: 1 <= i < |refs| ==> refs[i] == refs[1..][i - 1];
      CheckNames(h, refs[1..])
  }

  /** The elements of the collection a well-typed non-null reference denotes. */
  function ItemsAt(h: seq<Entity>, r: Ref, k: Kind): (items: Items)
    requires r.Ptr? && RefOk(h, |h|, r, k)
    ensures ItemsKind(items) == k || (k in {AttachKind, ObjectKind, AnimHeadKind, AnimHead2Kind})
  {
    if h[r.id].Collection? then h[r.id].items else Vector3s([])
  }

  // ---------------------------------------------------------------------------------
  // Arrays of plain values

  function MaterialInit(render: Render, m: Material): string
  {
    "    {" + NewLine
    + "        " + FormatHex(m.diffuseColor, 8) + ItemSeparator
    + "        " + FormatHex(m.specularColor, 8) + ItemSeparator
    + "        " + FormatSingle(render, m.unknown08) + ItemSeparator
    + "        " + FormatHex(m.textureId, 8) + ItemSeparator
    + "        " + FormatHex(m.unknown10, 4) + ItemSeparator
    + "        " + FormatHex(m.flags, 2) + ItemSeparator
    + "        " + FormatHex(m.unknown13, 2) + NewLine
    + "    }"
  }

  /** Export(NamedCollection<MATERIAL>, Linkage): one braced block of seven fields per material. */
  method ExportMaterials(h: seq<Entity>, render: Render, materials: Ref, linkage: Linkage) returns (r: Result<string>)
    requires RefOk(h, |h|, materials, MaterialsKind)
    ensures materials.Null? ==> r == Err(ArgumentNull("materials"))
    ensures materials.Ptr? ==>
      var ms := h[materials.id].items.materials;
      var name := h[materials.id].name;
      r == if |ms| == 0 then Err(Argument(EmptyCollection))
           else if !ValidName(name) then Err(InvalidNameError(name))
           else ArrayDefinition(LinkagePrefix(linkage) + "struct MATERIAL " + NameText(name), ms, m => Ok(MaterialInit(render, m)))
  {
    if materials.Null? {
      return Err(ArgumentNull("materials"));
    }
    var c := h[materials.id];
    var ms := c.items.materials;
    if |ms| == 0 {
      return Err(Argument(EmptyCollection));
    }
    var valid := ValidateName(c.name);
    if valid.Err? {
      return Err(valid.error);
    }
    r := WriteArray(LinkagePrefix(linkage) + "struct MATERIAL " + NameText(c.name), ms, m => Ok(MaterialInit(render, m)));
  }

  function PolyNormalInit(render: Render, n: PolyNormal): string
  {
    "    { " + FormatSingle(render, n.unknown00) + ", " + FormatSingle(render, n.unknown04) + " }"
  }

  /** Export(NamedCollection<PolyNormal>). */
  method ExportPolyNormals(h: seq<Entity>, render: Render, polyNormals: Ref) returns (r: Result<string>)
    requires RefOk(h, |h|, polyNormals, PolyNormalsKind)
    ensures polyNormals.Null? ==> r == Err(ArgumentNull("polyNormals"))
    ensures polyNormals.Ptr? ==>
      var ns := h[polyNormals.id].items.polyNormals;
      r == if |ns| == 0 then Err(Argument(EmptyCollection))
           else ArrayDefinition("static struct PolyNormal " + NameText(h[polyNormals.id].name), ns, n => Ok(PolyNormalInit(render, n)))
  {
    if polyNormals.Null? {
      return Err(ArgumentNull("polyNormals"));
    }
    var c := h[polyNormals.id];
    if |c.items.polyNormals| == 0 {
      return Err(Argument(EmptyCollection));
    }
    r := WriteArray("static struct PolyNormal " + NameText(c.name), c.items.polyNormals, n => Ok(PolyNormalInit(render, n)));
  }

  function Rotation3AnimDataInit(d: Rotation3AnimData): string
  {
    "    { " + FormatInteger(d.frameNumber) + ", " + FormatRotation3(d.rotation) + " }"
  }

  /** The text Export(NamedCollection<Rotation3AnimData>) returns. */
  function Rotation3AnimDatasText(h: seq<Entity>, coll: Ref): (r: Result<string>)
    requires RefOk(h, |h|, coll, Rotation3AnimDatasKind)
    ensures coll.Null? ==> r == Err(ArgumentNull("rotation3AnimDataCollection"))
    ensures coll.Ptr? ==> (r.Ok? <==> |h[coll.id].items.rotation3AnimDatas| > 0)
  {
    if coll.Null? then Err(ArgumentNull("rotation3AnimDataCollection"))
    else
      var ds := h[coll.id].items.rotation3AnimDatas;
      if |ds| == 0 then Err(Argument(EmptyCollection))
      else ArrayDefinition("static struct Rotation3AnimData " + NameText(h[coll.id].name), ds, d => Ok(Rotation3AnimDataInit(d)))
  }

  /** Export(NamedCollection<Rotation3AnimData>). */
  method ExportRotation3AnimDatas(h: seq<Entity>, coll: Ref) returns (r: Result<string>)
    requires RefOk(h, |h|, coll, Rotation3AnimDatasKind)
    ensures r == Rotation3AnimDatasText(h, coll)
  {
    if coll.Null? {
      return Err(ArgumentNull("rotation3AnimDataCollection"));
    }
    var c := h[coll.id];
    if |c.items.rotation3AnimDatas| == 0 {
      return Err(Argument(EmptyCollection));
    }
    r := WriteArray("static struct Rotation3AnimData " + NameText(c.name), c.items.rotation3AnimDatas, d => Ok(Rotation3AnimDataInit(d)));
  }

  /** Export(NamedCollection<uint>): one "0x" and eight hexadecimal digits per colour. */
  method ExportColors(h: seq<Entity>, uint32Collection: Ref) returns (r: Result<string>)
    requires RefOk(h, |h|, uint32Collection, ColorsKind)
    ensures uint32Collection.Null? ==> r == Err(ArgumentNull("uint32Collection"))
    ensures uint32Collection.Ptr? ==>
      var cs := h[uint32Collection.id].items.colors;
      r == if |cs| == 0 then Err(Argument(EmptyCollection))
           else ArrayDefinition("static unsigned int " + NameText(h[uint32Collection.id].name), cs, (c: u32) => Ok("    " + FormatHex(c, 8)))
  {
    if uint32Collection.Null? {
      return Err(ArgumentNull("uint32Collection"));
    }
    var c := h[uint32Collection.id];
    if |c.items.colors| == 0 {
      return Err(Argument(EmptyCollection));
    }
    r := WriteArray("static unsigned int " + NameText(c.name), c.items.colors, (c: u32) => Ok("    " + FormatHex(c, 8)));
  }

  function UVInit(uv: UV): string
  {
    "    { " + FormatInteger(uv.u) + ", " + FormatInteger(uv.v) + " }"
  }

  /** Export(NamedCollection<UV>). */
  method ExportUVs(h: seq<Entity>, uv: Ref) returns (r: Result<string>)
    requires RefOk(h, |h|, uv, UVsKind)
    ensures uv.Null? ==> r == Err(ArgumentNull("uv"))
    ensures uv.Ptr? ==>
      var uvs := h[uv.id].items.uvs;
      r == if |uvs| == 0 then Err(Argument(EmptyCollection))
           else ArrayDefinition("static struct UV " + NameText(h[uv.id].name), uvs, x => Ok(UVInit(x)))
  {
    if uv.Null? {
      return Err(ArgumentNull("uv"));
    }
    var c := h[uv.id];
    if |c.items.uvs| == 0 {
      return Err(Argument(EmptyCollection));
    }
    r := WriteArray("static struct UV " + NameText(c.name), c.items.uvs, x => Ok(UVInit(x)));
  }

  /** The text Export(NamedCollection<Vector3>, Linkage) returns. */
  function Vector3sText(h: seq<Entity>, render: Render, vectors: Ref, linkage: Linkage): (r: Result<string>)
    requires RefOk(h, |h|, vectors, Vector3sKind)
    ensures vectors.Null? ==> r == Err(ArgumentNull("vectors"))
    ensures vectors.Ptr? ==> (r.Ok? <==> |h[vectors.id].items.vector3s| > 0)
  {
    if vectors.Null? then Err(ArgumentNull("vectors"))
    else
      var vs := h[vectors.id].items.vector3s;
      if |vs| == 0 then Err(Argument(EmptyCollection))
      else ArrayDefinition(LinkagePrefix(linkage) + "struct Vector3 " + NameText(h[vectors.id].name), vs, v => Ok("    " + FormatVector3(render, v)))
  }

  /** Export(NamedCollection<Vector3>, Linkage). */
  method ExportVector3s(h: seq<Entity>, render: Render, vectors: Ref, linkage: Linkage) returns (r: Result<string>)
    requires RefOk(h, |h|, vectors, Vector3sKind)
    ensures r == Vector3sText(h, render, vectors, linkage)
  {
    if vectors.Null? {
      return Err(ArgumentNull("vectors"));
    }
    var c := h[vectors.id];
    if |c.items.vector3s| == 0 {
      return Err(Argument(EmptyCollection));
    }
    r := WriteArray(LinkagePrefix(linkage) + "struct Vector3 " + NameText(c.name), c.items.vector3s, v => Ok("    " + FormatVector3(render, v)));
  }

  function Vector3AnimDataInit(render: Render, d: Vector3AnimData): string
  {
    "    { " + FormatInteger(d.frameNumber) + ", " + FormatVector3(render, d.vector) + " }"
  }

  /** The text Export(NamedCollection<Vector3AnimData>) returns. */
  function Vector3AnimDatasText(h: seq<Entity>, render: Render, coll: Ref): (r: Result<string>)
    requires RefOk(h, |h|, coll, Vector3AnimDatasKind)
    ensures coll.Null? ==> r == Err(ArgumentNull("vector3AnimDataCollection"))
    ensures coll.Ptr? ==> (r.Ok? <==> |h[coll.id].items.vector3AnimDatas| > 0)
  {
    if coll.Null? then Err(ArgumentNull("vector3AnimDataCollection"))
    else
      var ds := h[coll.id].items.vector3AnimDatas;
      if |ds| == 0 then Err(Argument(EmptyCollection))
      else ArrayDefinition("static struct Vector3AnimData " + NameText(h[coll.id].name), ds, d => Ok(Vector3AnimDataInit(render, d)))
  }

  /** Export(NamedCollection<Vector3AnimData>). */
  method ExportVector3AnimDatas(h: seq<Entity>, render: Render, coll: Ref) returns (r: Result<string>)
    requires RefOk(h, |h|, coll, Vector3AnimDatasKind)
    ensures r == Vector3AnimDatasText(h, render, coll)
  {
    if coll.Null? {
      return Err(ArgumentNull("vector3AnimDataCollection"));
    }
    var c := h[coll.id];
    if |c.items.vector3AnimDatas| == 0 {
      return Err(Argument(EmptyCollection));
    }
    r := WriteArray("static struct Vector3AnimData " + NameText(c.name), c.items.vector3AnimDatas, d => Ok(Vector3AnimDataInit(render, d)));
  }

  // ---------------------------------------------------------------------------------
  // Meshes

  /** The poly type named by the top two bits of a mesh's first field. */
  function MeshPolyType(materialIdAndPolyType: u16): string
  {
    var t := materialIdAndPolyType / 0x4000;
    if t == 0 then "MeshPolyType_Triangles"
    else if t == 1 then "MeshPolyType_Quads"
    else if t == 2 then "MeshPolyType_StripsA"
    else "MeshPolyType_StripsB"
  }

  /**
   * One MESH initialiser. The names of the four arrays are validated first; a null poly
   * array is then dereferenced (a NullReferenceException), and more polys than a
   * `ushort` counts are rejected.
   */
  function MeshInit(h: seq<Entity>, m: Mesh): (r: Result<string>)
    ensures r.Ok? <==> (forall x :: x in [m.polys, m.polyNormals, m.vertexColors, m.uv] && x.Ptr? ==> ValidName(NameOf(h, x)))
                        && m.polys.Ptr? && ItemCount(h, m.polys) <= 0xFFFF
    ensures m.polys.Null? && r.Err? && CheckNames(h, [m.polys, m.polyNormals, m.vertexColors, m.uv]).Ok? ==> r.error == NullReference
  {
    var names := CheckNames(h, [m.polys, m.polyNormals, m.vertexColors, m.uv]);
    if names.Err? then Err(names.error)
    else if m.polys.Null? then Err(NullReference)
    else if ItemCount(h, m.polys) > 0xFFFF then Err(Argument(PolyCountInMeshTooHigh))
    else Ok("    { " + FormatInteger(m.materialIdAndPolyType % 0x4000) + " | " + MeshPolyType(m.materialIdAndPolyType) + ", "
            + FormatInteger(ItemCount(h, m.polys)) + ", " + NameText(NameOf(h, m.polys)) + ", "
            + FormatInteger(m.polyAttributes) + ", "
            + ArrayField(h, m.polyNormals) + ", " + ArrayField(h, m.vertexColors) + ", " + ArrayField(h, m.uv) + ", "
            + FormatInteger(m.nullMember) + " }")
  }

  /** Export(NamedCollection<MESH>). */
  method ExportMeshes(h: seq<Entity>, meshes: Ref) returns (r: Result<string>)
    requires RefOk(h, |h|, meshes, MeshesKind)
    ensures meshes.Null? ==> r == Err(ArgumentNull("meshes"))
    ensures meshes.Ptr? ==>
      var ms := h[meshes.id].items.meshes;
      var name := h[meshes.id].name;
      r == if |ms| == 0 then Err(Argument(EmptyCollection))
           else if !ValidName(name) then Err(InvalidNameError(name))
           else ArrayDefinition("static struct MESH " + NameText(name), ms, m => MeshInit(h, m))
  {
    if meshes.Null? {
      return Err(ArgumentNull("meshes"));
    }
    var c := h[meshes.id];
    if |c.items.meshes| == 0 {
      return Err(Argument(EmptyCollection));
    }
    var valid := ValidateName(c.name);
    if valid.Err? {
      return Err(valid.error);
    }
    r := WriteArray("static struct MESH " + NameText(c.name), c.items.meshes, m => MeshInit(h, m));
  }

  // ---------------------------------------------------------------------------------
  // Pointer arrays

  /** The collections of references: NamedCollection<T> for a structure or collection type T. */
  predicate IsPointerListKind(k: Kind)
  {
    k == AttachesKind || k == ObjectsKind || k == AnimHeadsKind || k == AnimHead2sKind
    || k == MaterialArraysKind || k == Vector3ArraysKind
  }

  /** The elements are named collections, exported as arrays: their names already are pointers. */
  predicate HoldsArrays(k: Kind)
  {
    k == MaterialArraysKind || k == Vector3ArraysKind
  }

  /** The C structure type and the parameter name of each pointer-array overload. */
  function PointerListNames(k: Kind): (string, string)
    requires IsPointerListKind(k)
  {
    match k
    case AttachesKind => ("ATTACH", "modelList")
    case ObjectsKind => ("OBJECT", "objectList")
    case AnimHeadsKind => ("AnimHead", "actionList")
    case AnimHead2sKind => ("AnimHead2", "motionList")
    case MaterialArraysKind => ("MATERIAL", "materialList")
    case Vector3ArraysKind => ("Vector3", "pointList")
  }

  /** One entry of a pointer array: NULL, the address of a structure, or the name of an array. */
  function PointerInit(h: seq<Entity>, arrays: bool, r: Ref): (e: Result<string>)
    ensures r.Null? ==> e == Ok("    NULL")
    ensures r.Ptr? ==> (e.Ok? <==> ValidName(NameOf(h, r)))
    ensures r.Ptr? && e.Ok? ==> e.value == "    " + (if arrays then "" else "&") + NameOf(h, r).value
  {
    if r.Null? then Ok("    NULL")
    else if !ValidName(NameOf(h, r)) then Err(InvalidNameError(NameOf(h, r)))
    else Ok("    " + (if arrays then "" else "&") + NameText(NameOf(h, r)))
  }

  /**
   * ExportPointerCollection behind the six pointer-array overloads: an exported array of
   * pointers, "__declspec(dllexport) struct T *name[]".
   */
  method ExportPointerCollection(h: seq<Entity>, list: Ref, k: Kind) returns (r: Result<string>)
    requires IsPointerListKind(k) && RefOk(h, |h|, list, k)
    ensures list.Null? ==> r == Err(ArgumentNull(PointerListNames(k).1))
    ensures list.Ptr? ==>
      var refs := h[list.id].items.refs;
      var name := h[list.id].name;
      r == if |refs| == 0 then Err(Argument(EmptyCollection))
           else if !ValidName(name) then Err(InvalidNameError(name))
           else ArrayDefinition("__declspec(dllexport) struct " + PointerListNames(k).0 + " *" + NameText(name),
                                refs, x => PointerInit(h, HoldsArrays(k), x))
  {
    var (structName, paramName) := PointerListNames(k);
    if list.Null? {
      return Err(ArgumentNull(paramName));
    }
    var c := h[list.id];
    if |c.items.refs| == 0 {
      return Err(Argument(EmptyCollection));
    }
    var valid := ValidateName(c.name);
    if valid.Err? {
      return Err(valid.error);
    }
    var arrays := HoldsArrays(k);
    r := WriteArray("__declspec(dllexport) struct " + structName + " *" + NameText(c.name), c.items.refs, x => PointerInit(h, arrays, x));
  }

  // ---------------------------------------------------------------------------------
  // Standalone structures

  /** The three counts an ATTACH holds: vertices (or normals), meshes and materials. */
  function VertexCountField(h: seq<Entity>, vertices: Ref, normals: Ref): string
  {
    if vertices.Ptr? then ArraySize(h, vertices) else ArraySize(h, normals)
  }

  function MaterialCountField(h: seq<Entity>, materials: Ref, overriddenMaterialCount: Option<i32>): string
  {
    if overriddenMaterialCount.Some? then FormatInteger(overriddenMaterialCount.value) else ArraySize(h, materials)
  }

  /** The first seven fields of an ATTACH: its four arrays and their three counts. */
  function AttachArrays(h: seq<Entity>, a: Entity, overriddenMaterialCount: Option<i32>): seq<string>
    requires a.Attach?
  {
    [ "    " + ArrayField(h, a.vertices),
      "    " + ArrayField(h, a.normals),
      "    " + VertexCountField(h, a.vertices, a.normals),
      "    " + ArrayField(h, a.meshes),
      "    " + ArrayField(h, a.materials),
      "    " + ArraySize(h, a.meshes),
      "    " + MaterialCountField(h, a.materials, overriddenMaterialCount) ]
  }

  /** The ten fields of an ATTACH, in declaration order: the arrays and counts, the bounding sphere, the unused word. */
  function AttachFields(h: seq<Entity>, render: Render, a: Entity, overriddenMaterialCount: Option<i32>): seq<string>
    requires a.Attach?
  {
    AttachArrays(h, a, overriddenMaterialCount)
    + [ "    " + FormatVector3(render, a.center), "    " + FormatSingle(render, a.radius), "    " + FormatInteger(a.nullMember) ]
  }

  /**
   * The counts of an ATTACH: the vertex count is the size of the vertex array, or of the
   * normal array when there are no vertices, or 0; a supplied material count replaces the
   * size of the material array.
   */
  lemma AttachCounts(h: seq<Entity>, a: Entity, overriddenMaterialCount: Option<i32>)
    requires a.Attach?
    ensures var fields := AttachArrays(h, a, overriddenMaterialCount);
      && |fields| == 7
      && fields[2] == "    " + (if a.vertices.Ptr? then "ARRAYSIZE(" + NameText(NameOf(h, a.vertices)) + ")"
                              else if a.normals.Ptr? then "ARRAYSIZE(" + NameText(NameOf(h, a.normals)) + ")" else "0")
      && fields[5] == "    " + (if a.meshes.Ptr? then "ARRAYSIZE(" + NameText(NameOf(h, a.meshes)) + ")" else "0")
      && fields[6] == "    " + (if overriddenMaterialCount.Some? then FormatInteger(overriddenMaterialCount.value)
                              else if a.materials.Ptr? then "ARRAYSIZE(" + NameText(NameOf(h, a.materials)) + ")" else "0")
  {
    var fields := AttachArrays(h, a, overriddenMaterialCount);
    assert fields[2] == "    " + VertexCountField(h, a.vertices, a.normals);
    assert fields[6] == "    " + MaterialCountField(h, a.materials, overriddenMaterialCount);
  }

  /**
   * Export(ATTACH) and Export(ATTACH, int): a vertex array and a normal array of different
   * lengths are rejected, then every name is validated. A supplied material count replaces
   * the ARRAYSIZE of the material array.
   */
  function AttachText(h: seq<Entity>, render: Render, attach: Ref, overriddenMaterialCount: Option<i32>): (r: Result<string>)
    requires RefOk(h, |h|, attach, AttachKind)
    ensures attach.Null? ==> r == Err(ArgumentNull("attach"))
    ensures attach.Ptr? ==>
      var a := h[attach.id];
      && (a.vertices.Ptr? && a.normals.Ptr? && ItemCount(h, a.vertices) != ItemCount(h, a.normals)
          ==> r == Err(Argument(VertexNormalCountMismatch)))
      && (r.Ok? <==> !(a.vertices.Ptr? && a.normals.Ptr? && ItemCount(h, a.vertices) != ItemCount(h, a.normals))
                     && ValidName(a.name)
                     && forall x :: x in [a.vertices, a.normals, a.meshes, a.materials] && x.Ptr? ==> ValidName(NameOf(h, x)))
      && (r.Ok? ==> r.value == StructText("struct ATTACH " + NameText(a.name), AttachFields(h, render, a, overriddenMaterialCount)))
  {
    if attach.Null? then Err(ArgumentNull("attach"))
    else
      var a := h[attach.id];
      if a.vertices.Ptr? && a.normals.Ptr? && ItemCount(h, a.vertices) != ItemCount(h, a.normals) then
        Err(Argument(VertexNormalCountMismatch))
      else
        var _ :- CheckName(a.name);
        var _ :- CheckNames(h, [a.vertices, a.normals, a.meshes, a.materials]);
        Ok(StructText("struct ATTACH " + NameText(a.name), AttachFields(h, render, a, overriddenMaterialCount)))
  }

  /**
   * The six fields of an OBJECT. The flags and the attach pointer share the first line:
   * no line break is written between them.
   */
  function ObjectFields(h: seq<Entity>, render: Render, o: Entity): seq<string>
    requires o.Object?
  {
    [ "    " + FormatObjectFlags(o.flags) + ",    " + PointerField(h, o.attach),
      "    " + FormatVector3(render, o.position),
      "    " + FormatRotation3(o.rotation),
      "    " + FormatVector3(render, o.scale),
      "    " + PointerField(h, o.child),
      "    " + PointerField(h, o.sibling) ]
  }

  /** Export(OBJECT): the object, its attach, child and sibling must all have valid names. */
  function ObjectText(h: seq<Entity>, render: Render, obj: Ref): (r: Result<string>)
    requires RefOk(h, |h|, obj, ObjectKind)
    ensures obj.Null? ==> r == Err(ArgumentNull("obj"))
    ensures obj.Ptr? ==>
      var o := h[obj.id];
      && (r.Ok? <==> ValidName(o.name) && forall x :: x in [o.attach, o.child, o.sibling] && x.Ptr? ==> ValidName(NameOf(h, x)))
      && (r.Ok? ==> r.value == StructText("struct OBJECT " + NameText(o.name), ObjectFields(h, render, o)))
  {
    if obj.Null? then Err(ArgumentNull("obj"))
    else
      var o := h[obj.id];
      var _ :- CheckName(o.name);
      var _ :- CheckNames(h, [o.attach, o.child, o.sibling]);
      Ok(StructText("struct OBJECT " + NameText(o.name), ObjectFields(h, render, o)))
  }

  /** Export(AnimHead): a one-line definition holding the addresses of the model and the motion. */
  function AnimHeadText(h: seq<Entity>, action: Ref): (r: Result<string>)
    requires RefOk(h, |h|, action, AnimHeadKind)
    ensures action.Null? ==> r == Err(ArgumentNull("action"))
    ensures action.Ptr? ==>
      var a := h[action.id];
      && (r.Ok? <==> ValidName(a.name) && forall x :: x in [a.model, a.motion] && x.Ptr? ==> ValidName(NameOf(h, x)))
      && (r.Ok? ==> r.value == "struct AnimHead " + NameText(a.name) + " = { " + PointerField(h, a.model) + ", "
                               + PointerField(h, a.motion) + " };" + NewLine)
  {
    if action.Null? then Err(ArgumentNull("action"))
    else
      var a := h[action.id];
      var _ :- CheckName(a.name);
      var _ :- CheckNames(h, [a.model, a.motion]);
      Ok("struct AnimHead " + NameText(a.name) + " = { " + PointerField(h, a.model) + ", " + PointerField(h, a.motion) + " };" + NewLine)
  }

  /** Export(AnimHead2): the frame array, the frame count, the flags as named constants, the last word in hexadecimal. */
  function AnimHead2Text(h: seq<Entity>, motion: Ref): (r: Result<string>)
    requires RefOk(h, |h|, motion, AnimHead2Kind)
    ensures motion.Null? ==> r == Err(ArgumentNull("motion"))
    ensures motion.Ptr? ==>
      var m := h[motion.id];
      && (r.Ok? <==> ValidName(m.name) && (m.frameData.Ptr? ==> ValidName(NameOf(h, m.frameData))))
      && (r.Ok? ==> r.value == StructText("struct AnimHead2 " + NameText(m.name),
                       [ "    " + ArrayField(h, m.frameData), "    " + FormatInteger(m.frameCount),
                         "    " + FormatAnimHead2Flags(m.motionFlags), "    " + FormatHex(m.unknown0A, 4) ]))
  {
    if motion.Null? then Err(ArgumentNull("motion"))
    else
      var m := h[motion.id];
      var _ :- CheckName(m.name);
      var _ :- CheckNames(h, [m.frameData]);
      Ok(StructText("struct AnimHead2 " + NameText(m.name),
                    [ "    " + ArrayField(h, m.frameData), "    " + FormatInteger(m.frameCount),
                      "    " + FormatAnimHead2Flags(m.motionFlags), "    " + FormatHex(m.unknown0A, 4) ]))
  }

  // ---------------------------------------------------------------------------------
  // Homogeneous collections

  /** No null element, and every element of the same run-time type as the first. */
  predicate Homogeneous<T>(xs: seq<Option<T>>, tag: T -> nat)
  {
    |xs| > 0 && xs[0].Some? && forall i :: 0 <= i < |xs| ==> xs[i].Some? && tag(xs[i].value) == tag(xs[0].value)
  }

  /** The first position from `i` on that holds a null or an element whose type tag is not `t`; |xs| if none. */
  function FirstStray<T>(xs: seq<Option<T>>, tag: T -> nat, t: nat, i: nat): (k: nat)
    requires i <= |xs|
    ensures i <= k <= |xs|
    ensures forall j :: i <= j < k ==> xs[j].Some? && tag(xs[j].value) == t
    ensures k < |xs| ==> xs[k].None? || tag(xs[k].value) != t
    decreases |xs| - i
  {
    if i == |xs| then i
    else if xs[i].None? || tag(xs[i].value) != t then i
    else FirstStray(xs, tag, t, i + 1)
  }

  /** What the homogeneity check throws for a collection: a null comes first, otherwise the first stray type. */
  function StrayProblem<T>(xs: seq<Option<T>>, tag: T -> nat): Problem
    requires |xs| > 0
  {
    if xs[0].None? then CollectionContainsNull
    else
      var k := FirstStray(xs, tag, tag(xs[0].value), 1);
      if k < |xs| && xs[k].None? then CollectionContainsNull else CollectionIsNotHomogeneous
  }

  /**
   * The checks that open the poly and frame exports: the first element must not be null,
   * and every later one must be non-null and of the first one's type.
   */
  method CheckHomogeneous<T>(xs: seq<Option<T>>, tag: T -> nat) returns (r: Result<()>)
    requires |xs| > 0
    ensures r.Ok? <==> Homogeneous(xs, tag)
    ensures r.Err? ==> r.error == Argument(StrayProblem(xs, tag))
  {
    if xs[0].None? {
      return Err(Argument(CollectionContainsNull));
    }
    var t := tag(xs[0].value);
    for i := 1 to |xs|
      invariant FirstStray(xs, tag, t, 1) == FirstStray(xs, tag, t, i)
    {
      if xs[i].None? {
        return Err(Argument(CollectionContainsNull));
      }
      if tag(xs[i].value) != t {
        return Err(Argument(CollectionIsNotHomogeneous));
      }
    }
    assert FirstStray(xs, tag, t, 1) == |xs|;
    r := Ok(());
  }

  /** The elements of a collection without nulls. */
  function Present<T>(xs: seq<Option<T>>): (ys: seq<T>)
    requires forall i :: 0 <= i < |xs| ==> xs[i].Some?
    ensures |ys| == |xs| && forall i :: 0 <= i < |xs| ==> xs[i] == Some(ys[i])
  {
    seq(|xs|, i requires 0 <= i < |xs| => xs[i].value)
  }

  // ---------------------------------------------------------------------------------
  // Polys

  /** The run-time type of a poly. */
  function PolyTag(p: Poly): nat
  {
    match p
    case Triangle(_, _, _) => 0
    case Quad(_, _, _, _) => 1
    case Strip(_, _) => 2
  }

  /** The indices of a strip, each as a decimal number. */
  function Decimals(vs: seq<u16>): seq<string>
  {
    if vs == [] then [] else Decimals(vs[..|vs| - 1]) + [FormatInteger(vs[|vs| - 1])]
  }

  /** The header of a strip as a C expression: the count, or-ed with the reversed bit. */
  function StripHeaderText(isReversed: bool, count: nat): string
  {
    FormatInteger(count) + (if isReversed then " | 0x8000" else "")
  }

  /**
   * What the poly visitor writes for a strip: the header on one line, then the indices.
   * More vertices than a `short` counts are rejected; an empty strip fails when its first
   * index is read.
   */
  function StripInit(isReversed: bool, vertices: seq<u16>): Result<string>
  {
    if |vertices| > MaxStripVertices then Err(Argument(VertexCountInStripTooHigh))
    else if |vertices| == 0 then Err(ArgumentOutOfRange("index"))
    else Ok("    " + StripHeaderText(isReversed, |vertices|) + ItemSeparator + "    " + Join(Decimals(vertices), ", "))
  }

  /** What the poly visitor writes for a poly: its vertex indices, a strip with its header. */
  function PolyInit(p: Poly): Result<string>
  {
    match p
    case Triangle(v1, v2, v3) => Ok("    " + FormatInteger(v1) + ", " + FormatInteger(v2) + ", " + FormatInteger(v3))
    case Quad(v1, v2, v3, v4) =>
      Ok("    " + FormatInteger(v1) + ", " + FormatInteger(v2) + ", " + FormatInteger(v3) + ", " + FormatInteger(v4))
    case Strip(isReversed, vertices) => StripInit(isReversed, vertices)
  }

  /** The indices of a strip written before index `i`, each followed by a comma. */
  function Listed(vertices: seq<u16>, i: nat): string
    requires i <= |vertices|
  {
    if i == 0 then "" else Join(Decimals(vertices[..i]), ", ") + ", "
  }

  /** The listed indices and the next one are the decimals of the indices up to it. */
  lemma ListedJoin(vertices: seq<u16>, i: nat)
    requires i < |vertices|
    ensures Listed(vertices, i) + FormatInteger(vertices[i]) == Join(Decimals(vertices[..i + 1]), ", ")
  {
    var index := FormatInteger(vertices[i]);
    var ds := Decimals(vertices[..i]);
    assert vertices[..i + 1][..i] == vertices[..i];
    assert Decimals(vertices[..i + 1]) == ds + [index];
    if i > 0 {
      JoinSnoc(ds, ", ", index);
    } else {
      assert Join(ds + [index], ", ") == index;
    }
  }

  /** One more index of the strip, after the text `start`: another listed index, or the whole list after the last. */
  lemma ListedStep(start: string, vertices: seq<u16>, i: nat)
    requires i < |vertices|
    ensures i + 1 < |vertices| ==> start + Listed(vertices, i) + FormatInteger(vertices[i]) + ", " == start + Listed(vertices, i + 1)
    ensures i + 1 == |vertices| ==> start + Listed(vertices, i) + FormatInteger(vertices[i]) == start + Join(Decimals(vertices), ", ")
  {
    var listed := Listed(vertices, i);
    var index := FormatInteger(vertices[i]);
    ListedJoin(vertices, i);
    var joined := Join(Decimals(vertices[..i + 1]), ", ");
    assert start + listed + index == start + joined by {
      assert start + listed + index == start + (listed + index);
    }
    if i + 1 == |vertices| {
      assert vertices[..i + 1] == vertices;
    } else {
      assert Listed(vertices, i + 1) == joined + ", ";
      assert start + joined + ", " == start + (joined + ", ");
    }
  }

  /** PolyExporterVisitor.VisitStrip: the count check, the header, then the index loop. */
  method VisitStrip(isReversed: bool, vertices: seq<u16>) returns (r: Result<string>)
    ensures r == StripInit(isReversed, vertices)
  {
    if |vertices| > MaxStripVertices {
      return Err(Argument(VertexCountInStripTooHigh));
    }
    var sb := "    " + FormatInteger(|vertices|);
    if isReversed {
      sb := sb + " | 0x8000";
    }
    sb := sb + ItemSeparator + "    ";
    if |vertices| == 0 {
      return Err(ArgumentOutOfRange("index"));
    }
    ghost var start := sb;
    assert start == "    " + StripHeaderText(isReversed, |vertices|) + ItemSeparator + "    ";
    var i := 0;
    while true
      invariant 0 <= i < |vertices|
      invariant sb == start + Listed(vertices, i)
      decreases |vertices| - i
    {
      var index := FormatInteger(vertices[i]);
      ListedStep(start, vertices, i);
      sb := sb + index;
      i := i + 1;
      if i >= |vertices| {
        return Ok(sb);
      }
      sb := sb + ", ";
    }
  }

  /** Poly.Accept with a PolyExporterVisitor. */
  method AcceptPoly(p: Poly) returns (r: Result<string>)
    ensures r == PolyInit(p)
  {
    match p
    case Triangle(v1, v2, v3) =>
      r := Ok("    " + FormatInteger(v1) + ", " + FormatInteger(v2) + ", " + FormatInteger(v3));
    case Quad(v1, v2, v3, v4) =>
      r := Ok("    " + FormatInteger(v1) + ", " + FormatInteger(v2) + ", " + FormatInteger(v3) + ", " + FormatInteger(v4));
    case Strip(isReversed, vertices) =>
      r := VisitStrip(isReversed, vertices);
  }

  /** Export(NamedCollection<Poly>): a homogeneous collection of polys as one array of words. */
  method ExportPolys(h: seq<Entity>, polys: Ref) returns (r: Result<string>)
    requires RefOk(h, |h|, polys, PolysKind)
    ensures polys.Null? ==> r == Err(ArgumentNull("polys"))
    ensures polys.Ptr? ==>
      var ps := h[polys.id].items.polys;
      r == if |ps| == 0 then Err(Argument(EmptyCollection))
           else if !Homogeneous(ps, PolyTag) then Err(Argument(StrayProblem(ps, PolyTag)))
           else ArrayDefinition("static short unsigned int " + NameText(h[polys.id].name), Present(ps), PolyInit)
  {
    if polys.Null? {
      return Err(ArgumentNull("polys"));
    }
    var c := h[polys.id];
    var ps := c.items.polys;
    if |ps| == 0 {
      return Err(Argument(EmptyCollection));
    }
    var check := CheckHomogeneous(ps, PolyTag);
    if check.Err? {
      return Err(check.error);
    }
    r := WritePolys("static short unsigned int " + NameText(c.name), Present(ps));
  }

  /** The loop of the poly export, each element written by the poly visitor. */
  method WritePolys(decl: string, elems: seq<Poly>) returns (r: Result<string>)
    requires |elems| > 0
    ensures r == ArrayDefinition(decl, elems, PolyInit)
  {
    var sb := decl + ArrayOpening;
    var i := 0;
    ghost var done: seq<string> := [];
    assert elems[..0] == [];
    while true
      invariant 0 <= i < |elems|
      invariant Initialisers(elems[..i], PolyInit) == Ok(done)
      invariant sb == Written(decl, done)
      decreases |elems| - i
    {
      var item := AcceptPoly(elems[i]);
      if item.Err? {
        InitialisersStop(elems, i, PolyInit, done);
        return Err(item.error);
      }
      InitialisersSnoc(elems, i, PolyInit, done);
      WrittenNext(decl, done, item.value);
      sb := sb + item.value;
      done := done + [item.value];
      i := i + 1;
      if i >= |elems| {
        assert elems[..i] == elems;
        return Ok(sb + Closing);
      }
      sb := sb + ItemSeparator;
    }
  }

  /**
   * The exported strip holds the words of the strip's on-disk encoding: its header
   * expression is the low fifteen bits of word 0, or-ed with 0x8000 exactly when bit 15 is
   * set, and its indices are the words that follow.
   */
  lemma StripInitWords(isReversed: bool, vertices: seq<u16>)
    requires 0 < |vertices| <= MaxStripVertices
    ensures var w := ToArray(Strip(isReversed, vertices)).value;
      StripInit(isReversed, vertices)
        == Ok("    " + StripHeaderText(w[0] >= ReversedBit, w[0] % ReversedBit) + ItemSeparator + "    " + Join(Decimals(w[1..]), ", "))
  {
    var w := ToArray(Strip(isReversed, vertices)).value;
    assert w[1..] == vertices;
  }
}

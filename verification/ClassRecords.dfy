/** The ".class" cache files of src/preclass.c: the three writers, the parser, and when the parser recovers
    what the writers wrote. */
module ClassRecords {
  import opened CStrings
  import opened CacheLines

  datatype VarKind = InstanceVar | ClassVar

  datatype VarInit = VarInit(classname: string, varname: string, varclass: string, init: string, kind: VarKind)

  datatype ClassInfo = ClassInfo(classname: string, superclassname: string, vars: seq<VarInit>)

  const EMPTY := ClassInfo("", "", [])

  // ---------- Writing ----------

  /** A variable declaration: the class and the initial value may be left empty. */
  datatype VarDecl = VarDecl(varname: string, varclass: string, init: string, kind: VarKind)

  function SuperName(superclass: Option<string>): string {
    match superclass case None => "NULLSTR" case Some(s) => s
  }

  function HeaderRec(classname: string, superclass: Option<string>): Rec {
    Rec('c', [classname, SuperName(superclass)])
  }

  /** The variable a declaration stands for, once the writers have filled in the defaults. */
  function Declared(classname: string, d: VarDecl): VarInit {
    VarInit(classname, d.varname, if d.varclass != "" then d.varclass else classname,
            if d.init != "" then d.init else NULLSTR, d.kind)
  }

  function DeclaredAll(classname: string, decls: seq<VarDecl>): seq<VarInit> {
    if decls == [] then [] else [Declared(classname, decls[0])] + DeclaredAll(classname, decls[1..])
  }

  function KindTag(kind: VarKind): char {
    if kind.InstanceVar? then 'i' else 'l'
  }

  function VarRec(v: VarInit): Rec {
    Rec(KindTag(v.kind), [v.classname, v.varname, v.varclass, v.init])
  }

  function VarRecs(vars: seq<VarInit>): seq<Rec> {
    if vars == [] then [] else [VarRec(vars[0])] + VarRecs(vars[1..])
  }

  /** The records of a class with the given variables. */
  function ClassRecs(classname: string, superclass: Option<string>, vars: seq<VarInit>): seq<Rec> {
    [HeaderRec(classname, superclass)] + VarRecs(vars)
  }

  lemma {:induction false} DeclaredAllAppend(classname: string, decls: seq<VarDecl>, d: VarDecl)
    ensures VarRecs(DeclaredAll(classname, decls + [d])) ==
            VarRecs(DeclaredAll(classname, decls)) + [VarRec(Declared(classname, d))]
    decreases |decls|
  {
    if decls == [] {
      assert DeclaredAll(classname, [d]) == [Declared(classname, d)];
      assert VarRecs([Declared(classname, d)]) == [VarRec(Declared(classname, d))];
    } else {
      assert (decls + [d])[1..] == decls[1..] + [d];
      DeclaredAllAppend(classname, decls[1..], d);
      var first, rest := Declared(classname, decls[0]), DeclaredAll(classname, decls[1..] + [d]);
      assert ([first] + rest)[1..] == rest;
    }
  }

  /** The cache file of one class. */
  class CacheFile {
    var contents: string

    constructor ()
      ensures contents == ""
    {
      contents := "";
    }

    /** save_class_init_info: truncates the file. */
    method SaveClassInitInfo(depsUpdated: bool, classname: string, superclass: Option<string>)
      modifies this
      ensures contents == if depsUpdated then Text([HeaderRec(classname, superclass)]) else old(contents)
    {
      if !depsUpdated { return; }
      if superclass.None? {
        contents := "c" + (":" + (classname + (":" + ("NULLSTR" + "\n"))));
      } else {
        contents := "c" + (":" + (classname + (":" + (superclass.value + "\n"))));
      }
      HeaderText(classname, superclass);
    }

    /** save_instance_var_init_info and save_class_var_init_info: append to the file. */
    method SaveVarInitInfo(depsUpdated: bool, classname: string, d: VarDecl)
      modifies this
      ensures contents == if depsUpdated then old(contents) + RecLine(VarRec(Declared(classname, d))) else old(contents)
    {
      if !depsUpdated { return; }
      var varclass := if d.varclass != "" then d.varclass else classname;
      var init := if d.init != "" then d.init else NULLSTR;
      Fields4(classname, d.varname, varclass, init);
      contents := contents + ([KindTag(d.kind)] +
        (":" + (classname + (":" + (d.varname + (":" + (varclass + (":" + (init + "\n")))))))));
    }

    /** A header write followed by any number of appends. */
    method SaveClass(classname: string, superclass: Option<string>, decls: seq<VarDecl>)
      modifies this
      ensures contents == Text(ClassRecs(classname, superclass, DeclaredAll(classname, decls)))
    {
      SaveClassInitInfo(true, classname, superclass);
      assert ClassRecs(classname, superclass, []) == [HeaderRec(classname, superclass)];
      for i := 0 to |decls|
        invariant contents == Text(ClassRecs(classname, superclass, DeclaredAll(classname, decls[..i])))
      {
        SaveVarInitInfo(true, classname, decls[i]);
        OneMoreVar(classname, superclass, decls, i);
      }
      assert decls[..|decls|] == decls;
    }
  }

  lemma HeaderText(classname: string, superclass: Option<string>)
    ensures Text([HeaderRec(classname, superclass)]) ==
            "c" + (":" + (classname + (":" + (SuperName(superclass) + "\n"))))
  {
    var super, header := SuperName(superclass), HeaderRec(classname, superclass);
    Fields1(super);
    assert [classname, super][1..] == [super];
    assert Text([header]) == RecLine(header) + Text([header][1..]);
  }

  lemma OneMoreVar(classname: string, superclass: Option<string>, decls: seq<VarDecl>, i: nat)
    requires i < |decls|
    ensures Text(ClassRecs(classname, superclass, DeclaredAll(classname, decls[..i + 1]))) ==
            Text(ClassRecs(classname, superclass, DeclaredAll(classname, decls[..i]))) +
            RecLine(VarRec(Declared(classname, decls[i])))
  {
    var header, before := [HeaderRec(classname, superclass)], VarRecs(DeclaredAll(classname, decls[..i]));
    var r := VarRec(Declared(classname, decls[i]));
    assert decls[..i + 1] == decls[..i] + [decls[i]];
    DeclaredAllAppend(classname, decls[..i], decls[i]);
    assert header + (before + [r]) == header + before + [r];
    TextAppendOne(header + before, r);
  }

  // ---------- Parsing ----------

  /** The text from r up to the next c, and the position after it; empty, and r, when there is none. */
  function Field(buf: string, r: nat, c: char): (f: (string, nat))
    requires r <= |buf|
    ensures r <= f.1 <= |buf|
  {
    match FindChar(buf, c, r)
    case None => ("", r)
    case Some(k) => (buf[r..k], k + 1)
  }

  /** The n fields from r on that end in ':', and the position after them. */
  function TakeNames(buf: string, r: nat, n: nat): (f: (seq<string>, nat))
    requires r <= |buf|
    ensures |f.0| == n && r <= f.1 <= |buf|
    decreases n
  {
    if n == 0 then ([], r)
    else
      var (name, r1) := Field(buf, r, ':');
      var (rest, r2) := TakeNames(buf, r1, n - 1);
      ([name] + rest, r2)
  }

  /** How many of a record's fields end in ':'; the last one ends with the line. */
  function NameCount(tag: char): Option<nat> {
    if tag == 'c' then Some(1) else if tag == 'i' || tag == 'l' then Some(3) else None
  }

  /** The record at l. A search that finds nothing where the source goes on from its result makes a bad one. */
  function ReadRecord(buf: string, l: nat): (r: Read)
    requires l < |buf|
    ensures r.Record? ==> l < r.next <= |buf|
  {
    match NameCount(buf[l])
    case None => NoRecord
    case Some(n) =>
      match FindChar(buf, ':', l)
      case None => BadRecord
      case Some(k) =>
        var (names, r) := TakeNames(buf, k + 1, n);
        match FindChar(buf, '\n', r)
        case None => BadRecord
        case Some(e) => Record(Rec(buf[l], names + [buf[r..e]]), e + 1)
  }

  function RecordsFrom(buf: string, l: nat): Contents
    requires l <= |buf|
    decreases |buf| - l
  {
    if l == |buf| then Finish(Done)
    else
      match ReadRecord(buf, l)
      case NoRecord => Finish(Stuck)
      case BadRecord => Finish(Malformed)
      case Record(rec, next) => More(rec, RecordsFrom(buf, next))
  }

  /** strncpy over a field that may hold a longer name already: nothing terminates the new one. */
  function Overwrite(field: string, name: string): string {
    if |name| < |field| then name + field[|name|..] else name
  }

  /** What a record adds to the class. */
  function Apply(r: Rec, info: ClassInfo): (info': ClassInfo)
    ensures info.vars <= info'.vars
  {
    var f := r.fields;
    if r.tag == 'c' && |f| == 2 then
      info.(classname := Overwrite(info.classname, f[0]), superclassname := Overwrite(info.superclassname, f[1]))
    else if |f| == 4 then
      info.(vars := info.vars + [VarInit(f[0], f[1], f[2], f[3], if r.tag == 'i' then InstanceVar else ClassVar)])
    else info
  }

  datatype ParseResult = Parsed(info: ClassInfo) | Failed(end: End)

  function Interpret(c: Contents, info: ClassInfo): (r: ParseResult)
    ensures r.Parsed? ==> info.vars <= r.info.vars
  {
    match c
    case Finish(end) => if end.Done? then Parsed(info) else Failed(end)
    case More(rec, rest) => Interpret(rest, Apply(rec, info))
  }

  function Parse(buf: string): ParseResult {
    Interpret(RecordsFrom(buf, 0), EMPTY)
  }

  method ReadNames(buf: string, r: nat, n: nat) returns (names: seq<string>, rptr: nat)
    requires r <= |buf|
    ensures rptr <= |buf| && (names, rptr) == TakeNames(buf, r, n)
    decreases n
  {
    if n == 0 { return [], r; }
    var (name, next) := Field(buf, r, ':');
    names, rptr := ReadNames(buf, next, n - 1);
    names := [name] + names;
  }

  /** One turn of the loop: finds the fields of the record at l. */
  method FindRecord(buf: string, l: nat) returns (r: Read)
    requires l < |buf|
    ensures r == ReadRecord(buf, l)
  {
    var count := NameCount(buf[l]);
    if count.None? { return NoRecord; }
    var colon := FindChar(buf, ':', l);
    if colon.None? { return BadRecord; }
    var names, rptr := ReadNames(buf, colon.value + 1, count.value);
    var end := FindChar(buf, '\n', rptr);
    if end.None? { return BadRecord; }
    return Record(Rec(buf[l], names + [buf[rptr..end.value]]), end.value + 1);
  }

  /** fill_in_class_info: the loop over the records of a file. */
  method FillInClassInfo(buf: string) returns (r: ParseResult)
    ensures r == Parse(buf)
  {
    var info, l := EMPTY, 0;
    while l < |buf|
      invariant 0 <= l <= |buf| && Parse(buf) == Interpret(RecordsFrom(buf, l), info)
      decreases |buf| - l
    {
      var record := FindRecord(buf, l);
      match record
      case NoRecord => return Failed(Stuck);
      case BadRecord => return Failed(Malformed);
      case Record(rec, next) => info, l := Apply(rec, info), next;
    }
    return Parsed(info);
  }
}

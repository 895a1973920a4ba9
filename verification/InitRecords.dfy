/** The ".init" cache files of src/premethod.c: the printer, the parser, and when the parser recovers what the
    printer wrote. */
module InitRecords {
  import opened CStrings
  import opened CacheLines

  const STOPS: set<char> := {':', '\n'}

  // ---------- What is written ----------

  datatype Param = Param(name: string, classname: string, isPtr: bool, isPtrPtr: bool, isC: bool)

  /** A variable object: its own class, the class of its value when it has one, and the value's text. */
  datatype Variable = Variable(name: string, ownClass: string, valueClass: Option<string>, value: string)

  /** A method with its class: the selectors of its argument blocks, its parameters and attributes, the variables
      of the class, and the templates it uses. */
  datatype Method = Method(classname: string, argblks: seq<string>, returnclass: string, name: string,
                           selector: string, params: seq<Param>, attrs: nat, instanceVars: seq<Variable>,
                           classVars: seq<Variable>, templates: seq<string>)

  function VarClass(v: Variable): string {
    match v.valueClass case Some(c) => c case None => v.ownClass
  }

  function VarValue(v: Variable): string {
    if v.value != "" then v.value else NULLSTR
  }

  /** The decimal text of n: entry n of the ascii table. */
  function Ascii(n: nat): (s: string)
    ensures |s| > 0 && forall c <- s :: '0' <= c <= '9'
  {
    if n < 10 then [('0' as int + n) as char] else Ascii(n / 10) + [('0' as int + n % 10) as char]
  }

  // ---------- Records ----------

  /** How many fields the parser reads from a record with this letter; none begins with any other letter. */
  function FieldCount(tag: char): Option<nat> {
    if tag == 'm' || tag == 'p' then Some(6)
    else if tag == 'a' || tag == 'i' || tag == 'c' then Some(4)
    else if tag == 't' then Some(1)
    else None
  }

  function ArgblkRec(m: Method, selector: string): Rec {
    Rec('a', [m.classname, "Object", selector, selector])
  }

  function MethodRec(m: Method): Rec {
    Rec('m', [m.classname, m.returnclass, m.name, m.selector, Ascii(|m.params|), Ascii(m.attrs)])
  }

  function Flag(b: bool): string {
    if b then "1" else "0"
  }

  function ParamRec(m: Method, p: Param): Rec {
    Rec('p', [m.classname, m.name, p.name, p.classname, Flag(p.isPtr), Flag(p.isPtrPtr)])
  }

  function VarRec(tag: char, m: Method, v: Variable): Rec {
    Rec(tag, [m.classname, v.name, VarClass(v), VarValue(v)])
  }

  function ArgblkRecs(m: Method, selectors: seq<string>): seq<Rec> {
    if selectors == [] then [] else [ArgblkRec(m, selectors[0])] + ArgblkRecs(m, selectors[1..])
  }

  /** Parameters that are C values are not written. */
  function ParamRecs(m: Method, params: seq<Param>): seq<Rec> {
    if params == [] then []
    else if params[0].isC then ParamRecs(m, params[1..])
    else [ParamRec(m, params[0])] + ParamRecs(m, params[1..])
  }

  /** A variable named "value" is created at run time, and not written. */
  function VarRecs(tag: char, m: Method, vars: seq<Variable>): seq<Rec> {
    if vars == [] then []
    else if vars[0].name == "value" then VarRecs(tag, m, vars[1..])
    else [VarRec(tag, m, vars[0])] + VarRecs(tag, m, vars[1..])
  }

  function TemplateRecs(templates: seq<string>): seq<Rec> {
    if templates == [] then [] else [Rec('t', [templates[0]])] + TemplateRecs(templates[1..])
  }

  function HeadRecords(m: Method): seq<Rec> {
    ArgblkRecs(m, m.argblks) + [MethodRec(m)] + ParamRecs(m, m.params)
  }

  function TailRecords(m: Method): seq<Rec> {
    VarRecs('i', m, m.instanceVars) + VarRecs('c', m, m.classVars) + TemplateRecs(m.templates)
  }

  /** A method's records, in the order in which they are written. */
  function Records(m: Method): seq<Rec> {
    HeadRecords(m) + TailRecords(m)
  }

  // ---------- What is read back ----------

  datatype ParamInit = ParamInit(classname: string, methodname: string, paramname: string, paramclass: string,
                                 isPtr: int, isPtrPtr: int)

  datatype ArgblkInit = ArgblkInit(classname: string, returnclassname: string, methodname: string, selectorname: string)

  /** A call that defines a variable: 'i' for an instance variable, 'c' for a class variable. */
  datatype VarCall = VarCall(tag: char, classname: string, varname: string, varclass: string, init: string)

  datatype InitInfo = InitInfo(classname: string, returnclassname: string, methodname: string, selectorname: string,
                               requiredArgs: int, methodAttrs: int, params: seq<ParamInit>,
                               argblks: seq<ArgblkInit>, templates: seq<string>, varCalls: seq<VarCall>)

  const EMPTY := InitInfo("", "", "", "", 0, 0, [], [], [], [])

  function SkipSpaces(s: string): string {
    if s != "" && IsSpace(s[0]) then SkipSpaces(s[1..]) else s
  }

  /** The number that the digits at the front of s make, after acc. */
  function DigitsValue(s: string, acc: nat): nat {
    if s == "" || !('0' <= s[0] <= '9') then acc else DigitsValue(s[1..], 10 * acc + (s[0] as int - '0' as int))
  }

  function Atoi(s: string): int {
    var t := SkipSpaces(s);
    if t != "" && t[0] == '-' then var n: int := DigitsValue(t[1..], 0); -n
    else if t != "" && t[0] == '+' then DigitsValue(t[1..], 0)
    else DigitsValue(t, 0)
  }

  /** What a record adds to the information; variables only count when their definitions are to be generated. */
  function Apply(r: Rec, info: InitInfo, genVarInit: bool): (info': InitInfo)
    ensures info.varCalls <= info'.varCalls
  {
    var f := r.fields;
    if FieldCount(r.tag) != Some(|f|) then info
    else if r.tag == 'm' then
      info.(classname := f[0], returnclassname := f[1], methodname := f[2], selectorname := f[3],
            requiredArgs := Atoi(f[4]), methodAttrs := Atoi(f[5]))
    else if r.tag == 'a' then info.(argblks := info.argblks + [ArgblkInit(f[0], f[1], f[2], f[3])])
    else if r.tag == 'p' then
      info.(params := info.params + [ParamInit(f[0], f[1], f[2], f[3], Atoi(f[4]), Atoi(f[5]))])
    else if r.tag == 't' then info.(templates := info.templates + [f[0]])
    else if genVarInit then info.(varCalls := info.varCalls + [VarCall(r.tag, f[0], f[1], f[2], f[3])])
    else info
  }

  // ---------- Parsing ----------

  /** The first ':' or newline from i on. */
  function FindStop(buf: string, i: nat): (r: Option<nat>)
    requires i <= |buf|
    ensures r.Some? ==> i <= r.value < |buf| && buf[r.value] in STOPS
    decreases |buf| - i
  {
    if i == |buf| then None else if buf[i] in STOPS then Some(i) else FindStop(buf, i + 1)
  }

  /** The n fields that start behind the stop at p, and the position after the last one's stop. */
  function FieldsFrom(buf: string, p: nat, n: nat): (r: Option<(seq<string>, nat)>)
    requires p < |buf|
    ensures r.Some? ==> |r.value.0| == n && p < r.value.1 <= |buf|
    decreases n
  {
    if n == 0 then Some(([], p + 1))
    else if buf[p] == '\n' then None
    else
      match FindStop(buf, p + 1)
      case None => None
      case Some(q) =>
        match FieldsFrom(buf, q, n - 1)
        case None => None
        case Some((fields, next)) => Some(([buf[p + 1..q]] + fields, next))
  }

  function ReadRecord(buf: string, l: nat): (r: Read)
    requires l < |buf|
    ensures r.Record? ==> l < r.next <= |buf| && FieldCount(r.rec.tag) == Some(|r.rec.fields|)
  {
    match FieldCount(buf[l])
    case None => NoRecord
    case Some(n) =>
      match FindStop(buf, l)
      case None => BadRecord
      case Some(p) =>
        match FieldsFrom(buf, p, n)
        case None => BadRecord
        case Some((fields, next)) => Record(Rec(buf[l], fields), next)
  }

  function RecordsFrom(buf: string, l: nat): Contents
    requires l <= |buf|
    decreases |buf| - l
  {
    if l == |buf| then Finish(Done)
    else
      match ReadRecord(buf, l)
      case NoRecord => Finish(Stuck)
      case BadRecord => Finish(Malformed)
      case Record(rec, next) => More(rec, RecordsFrom(buf, next))
  }

  datatype ParseResult = Parsed(info: InitInfo) | Failed(end: End)

  /** What the records add up to, on top of info. */
  function Interpret(c: Contents, info: InitInfo, genVarInit: bool): (r: ParseResult)
    ensures r.Parsed? ==> info.varCalls <= r.info.varCalls
  {
    match c
    case Finish(end) => if end.Done? then Parsed(info) else Failed(end)
    case More(rec, rest) => Interpret(rest, Apply(rec, info, genVarInit), genVarInit)
  }

  function Parse(buf: string, genVarInit: bool): ParseResult {
    Interpret(RecordsFrom(buf, 0), EMPTY, genVarInit)
  }
}

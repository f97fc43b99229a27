/** The routing table: conf files with includes and annotations, the forced-backend
    collapse, and per-op overrides from the environment. */
module BackendConfig {
  import opened Common
  import opened FlagosEnv

  datatype Backend =
    | Boxing | FlagGemsCpp | FlagGems | Ascend | Mthreads | Metax | TsingMicro | Enflame
    | Kunlunxin | Iluvatar | Cambricon | TileOps | Apple | Drobotics | NoBackend

  type Path = string
  type Files = map<Path, seq<string>>   // a conf file as its lines
  type Table = map<string, Backend>

  // ---------- Names ----------

  function ParseBackendName(raw: string): Option<Backend> {
    var v := Lower(raw);
    if v == "boxing" || v == "nvidia" || v == "cuda" then Some(Boxing)
    else if v == "metax" then Some(Metax)
    else if v == "hygon" || v == "thead" then Some(NoBackend)
    else if v == "tsingmicro" then Some(TsingMicro)
    else if v == "enflame" || v == "gcu" then Some(Enflame)
    else if v == "kunlunxin" then Some(Kunlunxin)
    else if v == "iluvatar" then Some(Iluvatar)
    else if v == "cambricon" then Some(Cambricon)
    else if v == "ascend" then Some(Ascend)
    else if v == "mthreads" || v == "musa" then Some(Mthreads)
    else if v == "tileops" then Some(TileOps)
    else if v == "apple" || v == "mps" then Some(Apple)
    else if v == "drobotics" || v == "bpu" then Some(Drobotics)
    else if v == "flaggems_cpp" || v == "flagos" then Some(FlagGemsCpp)
    else if v == "flaggems" || v == "flaggems_python" || v == "flagos_python" then Some(FlagGems)
    else if v == "none" then Some(NoBackend)
    else None
  }

  // ---------- Lines ----------

  predicate IsBlank(c: char) {
    c == ' ' || c == '\t' || c == '\r' || c == '\n'
  }

  function TrimLeft(s: string): string {
    if s != [] && IsBlank(s[0]) then TrimLeft(s[1..]) else s
  }

  function TrimRight(s: string): string {
    if s != [] && IsBlank(s[|s| - 1]) then TrimRight(s[..|s| - 1]) else s
  }

  function Trim(s: string): string {
    TrimRight(TrimLeft(s))
  }

  /** `find`: the position of the first `c`, or the length. */
  function Find(s: string, c: char): (i: nat)
    ensures i <= |s| && (i < |s| ==> s[i] == c)
  {
    if s == [] || s[0] == c then 0 else 1 + Find(s[1..], c)
  }

  /** The part of a path up to and including its last slash. */
  function Directory(path: Path): Path {
    if path == [] || path[|path| - 1] == '/' then path else Directory(path[..|path| - 1])
  }

  /** What one line says. */
  datatype Directive =
    | Nothing
    | Include(path: Path)
    | Assign(op: string, backend: Backend, annotation: Option<Backend>)

  function Code(line: string): string {
    line[..Find(line, '#')]
  }

  function Comment(line: string): string {
    if Find(line, '#') < |line| then Trim(line[Find(line, '#') + 1..]) else ""
  }

  function ReadInclude(t: string, path: Path): Directive {
    if |t| > 7 && t[..7] == "include" && (t[7] == ' ' || t[7] == '\t') then
      var inc := Trim(t[7..]);
      if inc == "" then Nothing else Include(if inc[0] == '/' then inc else Directory(path) + inc)
    else Nothing
  }

  /** An unknown backend name routes to FlagGems; an unknown annotation is none. */
  function ReadLine(line: string, path: Path): Directive {
    var code := Code(line);
    var eq := Find(code, '=');
    if eq == |code| then ReadInclude(Trim(code), path)
    else
      var op, val := Trim(code[..eq]), Trim(code[eq + 1..]);
      if op == "" || val == "" then Nothing
      else Assign(op,
                  if ParseBackendName(val).Some? then ParseBackendName(val).value else FlagGems,
                  if Comment(line) == "" then None else ParseBackendName(Comment(line)))
  }

  // ---------- What a line means ----------

  /** How a conf or a variable may spell a backend, in lower case. */
  predicate IsSpelling(v: string, b: Backend) {
    match b
    case Boxing => v == "boxing" || v == "nvidia" || v == "cuda"
    case FlagGemsCpp => v == "flaggems_cpp" || v == "flagos"
    case FlagGems => v == "flaggems" || v == "flaggems_python" || v == "flagos_python"
    case Ascend => v == "ascend"
    case Mthreads => v == "mthreads" || v == "musa"
    case Metax => v == "metax"
    case TsingMicro => v == "tsingmicro"
    case Enflame => v == "enflame" || v == "gcu"
    case Kunlunxin => v == "kunlunxin"
    case Iluvatar => v == "iluvatar"
    case Cambricon => v == "cambricon"
    case TileOps => v == "tileops"
    case Apple => v == "apple" || v == "mps"
    case Drobotics => v == "drobotics" || v == "bpu"
    case NoBackend => v == "none" || v == "hygon" || v == "thead"
  }

  /** The name, whatever its case, spells the backend; with none it spells no backend at all. */
  ghost predicate Spells(name: string, b: Option<Backend>) {
    if b.Some? then IsSpelling(Lower(name), b.value) else forall c :: !IsSpelling(Lower(name), c)
  }

  lemma NameIsSpelled(name: string)
    requires ParseBackendName(name).Some?
    ensures IsSpelling(Lower(name), ParseBackendName(name).value)
  {
    hide Lower;
  }

  lemma NameIsNotSpelled(name: string, b: Backend)
    requires ParseBackendName(name).None?
    ensures !IsSpelling(Lower(name), b)
  {
    hide Lower;
  }

  lemma NamesAreSpelled(name: string)
    ensures Spells(name, ParseBackendName(name))
  {
    hide ParseBackendName, IsSpelling, Lower;
    if ParseBackendName(name).Some? {
      NameIsSpelled(name);
    } else {
      forall b ensures !IsSpelling(Lower(name), b) {
        NameIsNotSpelled(name, b);
      }
    }
  }

  /** A piece of a line as it is written: there, bare of blanks, and not what ends a piece. */
  predicate Piece(s: string) {
    s != "" && Bare(s, " \t\r\n") && '#' !in s && '=' !in s
  }

  lemma {:induction false} TrimLeftIs(a: string, s: string)
    requires AllIn(a, " \t\r\n")
    ensures TrimLeft(a + s) == TrimLeft(s)
  {
    if a != "" {
      assert (a + s)[1..] == a[1..] + s;
      TrimLeftIs(a[1..], s);
    } else {
      assert a + s == s;
    }
  }

  lemma {:induction false} TrimRightIs(s: string, b: string)
    requires AllIn(b, " \t\r\n") && s != "" && s[|s| - 1] !in " \t\r\n"
    ensures TrimRight(s + b) == s
  {
    if b != "" {
      assert (s + b)[..|s + b| - 1] == s + b[..|b| - 1];
      TrimRightIs(s, b[..|b| - 1]);
    } else {
      assert s + b == s;
    }
  }

  /** Trimming takes off exactly the blanks at both ends. */
  lemma TrimIs(a: string, s: string, b: string)
    requires AllIn(a, " \t\r\n") && Bare(s, " \t\r\n") && AllIn(b, " \t\r\n")
    ensures Trim(a + s + b) == s
  {
    TrimLeftIs(a, s + b);
    assert a + s + b == a + (s + b);
    if s != "" {
      TrimRightIs(s, b);
    } else {
      TrimLeftIs(b, "");
      assert s + b == b + "";
    }
  }

  lemma {:induction false} FindIs(a: string, c: char, b: string)
    requires c !in a
    ensures Find(a + [c] + b, c) == |a| && Find(a, c) == |a|
  {
    if a != "" {
      assert (a + [c] + b)[1..] == a[1..] + [c] + b;
      FindIs(a[1..], c, b);
    }
  }

  lemma NotIn(c: char, a: string, b: string, d: string)
    requires c !in a && c !in b && c !in d
    ensures c !in a + b + d
  {
  }

  /** What an assignment line puts down. */
  ghost predicate Puts(d: Directive, op: string, name: string, annotation: Option<string>) {
    && d.Assign? && d.op == op
    && (exists b :: Spells(name, b) && d.backend == if b.Some? then b.value else FlagGems)
    && (if annotation.Some? then Spells(annotation.value, d.annotation) else d.annotation == None)
  }

  /** A line `op = name # annotation` routes the op to the backend the name spells, or to FlagGems if
      it spells none, and notes the backend the annotation spells, if it spells one. */
  lemma AnnotatedLine(op: string, name: string, annotation: string, path: Path)
    requires Piece(op) && Piece(name) && Piece(annotation)
    ensures Puts(ReadLine(op + " = " + name + " # " + annotation, path), op, name, Some(annotation))
  {
    hide ParseBackendName, Find, Trim, Spells;
    var code := op + " = " + name + " ";
    var line := op + " = " + name + " # " + annotation;
    assert line == code + "#" + (" " + annotation);
    assert '#' !in code by { assert code == op + " = " + (name + " "); NotIn('#', op, " = ", name + " "); }
    FindIs(code, '#', " " + annotation);
    assert line[..|code|] == code && line[|code| + 1..] == " " + annotation + "";
    TrimIs(" ", annotation, "");
    AssignmentCode(op, name, " ");
    NamesAreSpelled(name);
    NamesAreSpelled(annotation);
  }

  /** A line without annotation notes none. */
  lemma PlainLine(op: string, name: string, path: Path)
    requires Piece(op) && Piece(name)
    ensures Puts(ReadLine(op + " = " + name, path), op, name, None)
  {
    hide ParseBackendName, Find, Trim, Spells;
    var line := op + " = " + name + "";
    assert line == op + " = " + name && line[..|line|] == line;
    assert '#' !in line by { NotIn('#', op, " = ", name); }
    FindIs(line, '#', "");
    AssignmentCode(op, name, "");
    NamesAreSpelled(name);
  }

  lemma AssignmentCode(op: string, name: string, end: string)
    requires Piece(op) && Piece(name) && AllIn(end, " ")
    ensures var code := op + " = " + name + end;
      Find(code, '=') == |op| + 1 < |code| && Trim(code[..|op| + 1]) == op && Trim(code[|op| + 2..]) == name
  {
    hide Find, Trim;
    var code := op + " = " + name + end;
    assert code == (op + " ") + "=" + (" " + name + end);
    FindIs(op + " ", '=', " " + name + end);
    assert code[..|op| + 1] == "" + op + " " && code[|op| + 2..] == " " + name + end;
    TrimIs("", op, " ");
    TrimIs(" ", name, end);
  }

  /** A line `include file` goes on in the file, a relative one beside the including file. */
  lemma IncludeLine(file: string, directory: Path, base: string)
    requires Piece(file) && '/' !in base && (directory == "" || directory[|directory| - 1] == '/')
    ensures ReadLine("include " + file, directory + base) == Include(if file[0] == '/' then file else directory + file)
  {
    hide Find, Trim;
    var line := "include " + file;
    assert '#' !in line && '=' !in line by { NotIn('#', "include ", file, ""); NotIn('=', "include ", file, ""); assert line + "" == line; }
    FindIs(line, '#', "");
    FindIs(line, '=', "");
    assert line[..|line|] == line && line == "" + line + "";
    assert line[0] == 'i' && line[|line| - 1] == file[|file| - 1];
    TrimIs("", line, "");
    assert line[..7] == "include" && line[7..] == " " + file + "";
    TrimIs(" ", file, "");
    DirectoryIs(directory, base);
  }

  /** Any other line without an assignment says nothing. */
  lemma OtherLine(text: string, path: Path)
    requires Bare(text, " \t\r\n") && '#' !in text && '=' !in text
    requires forall rest: string :: text != "include " + rest && text != "include\t" + rest
    ensures ReadLine(text, path) == Nothing
  {
    hide Find, Trim;
    FindIs(text, '#', "");
    FindIs(text, '=', "");
    assert text[..|text|] == text && text == "" + text + "";
    TrimIs("", text, "");
    if |text| > 7 && text[..7] == "include" {
      assert text == text[..7] + [text[7]] + text[8..];
      assert "include" + [' '] == "include " && "include" + ['\t'] == "include\t";
    }
  }

  /** So does an assignment without an op or without a backend. */
  lemma HalfLine(left: string, right: string, path: Path)
    requires '#' !in left && '#' !in right && '=' !in left && (AllIn(left, " \t\r\n") || AllIn(right, " \t\r\n"))
    ensures ReadLine(left + "=" + right, path) == Nothing
  {
    hide Find, Trim;
    var line := left + "=" + right;
    assert '#' !in line by { NotIn('#', left, "=", right); }
    FindIs(line, '#', "");
    FindIs(left, '=', right);
    assert line[..|line|] == line && line[..|left|] == left && line[|left| + 1..] == right;
    if AllIn(left, " \t\r\n") {
      TrimIs(left, "", "");
      assert left + "" + "" == left;
    } else {
      TrimIs(right, "", "");
      assert right + "" + "" == right;
    }
  }

  lemma {:induction false} DirectoryIs(directory: Path, base: string)
    requires '/' !in base && (directory == "" || directory[|directory| - 1] == '/')
    ensures Directory(directory + base) == directory
  {
    if base != "" {
      assert (directory + base)[..|directory + base| - 1] == directory + base[..|base| - 1];
      DirectoryIs(directory, base[..|base| - 1]);
    } else {
      assert directory + base == directory;
    }
  }

  // ---------- Include expansion ----------

  const MAX_DEPTH: nat := 8

  /** The assignments of a file in the order in which they take effect, includes spliced
      in where they stand.  Files that cannot be opened and nesting beyond the bound
      contribute nothing, which is what makes cyclic includes finite. */
  function Expand(files: Files, path: Path, depth: nat): seq<Directive>
    decreases if depth > MAX_DEPTH then 0 else MAX_DEPTH + 1 - depth, 1, 0
  {
    if depth > MAX_DEPTH || path !in files then [] else ExpandLines(files, path, files[path], depth)
  }

  function ExpandLines(files: Files, path: Path, lines: seq<string>, depth: nat): seq<Directive>
    requires depth <= MAX_DEPTH
    decreases MAX_DEPTH + 1 - depth, 0, |lines|
  {
    if lines == [] then []
    else ExpandDirective(files, ReadLine(lines[0], path), depth) + ExpandLines(files, path, lines[1..], depth)
  }

  function ExpandDirective(files: Files, d: Directive, depth: nat): seq<Directive>
    requires depth <= MAX_DEPTH
    decreases MAX_DEPTH + 1 - depth, 0, 0
  {
    match d
    case Nothing => []
    case Include(inc) => Expand(files, inc, depth + 1)
    case Assign(_, _, _) => [d]
  }

  /** A file of assignment lines means these assignments, in their order. */
  lemma {:induction false} AssignmentLines(files: Files, path: Path, lines: seq<string>, depth: nat)
    requires depth <= MAX_DEPTH && forall i :: 0 <= i < |lines| ==> ReadLine(lines[i], path).Assign?
    ensures var ds := ExpandLines(files, path, lines, depth);
      |ds| == |lines| && forall i :: 0 <= i < |lines| ==> ds[i] == ReadLine(lines[i], path)
  {
    hide ReadLine;
    if lines != [] { AssignmentLines(files, path, lines[1..], depth); }
  }

  /** A file that includes itself is followed nine times, and no further. */
  lemma {:induction false} SelfInclude(files: Files, path: Path, inclusion: string, line: string, depth: nat)
    requires path in files && files[path] == [inclusion, line] && depth <= 9
    requires ReadLine(inclusion, path) == Include(path) && ReadLine(line, path).Assign?
    ensures Expand(files, path, depth) == seq(9 - depth, _ => ReadLine(line, path))
    decreases 9 - depth
  {
    hide ReadLine, Expand, ExpandLines;
    if depth < 9 {
      SelfInclude(files, path, inclusion, line, depth + 1);
      assert [inclusion, line][1..] == [line] && [line][1..] == [];
      ExpandUnfold(files, path, [inclusion, line], depth);
      ExpandUnfold(files, path, [line], depth);
      ExpandUnfold(files, path, [], depth);
    } else {
      TooDeep(files, path, depth);
    }
  }

  lemma ExpandUnfold(files: Files, path: Path, lines: seq<string>, depth: nat)
    requires depth <= MAX_DEPTH
    ensures path in files ==> Expand(files, path, depth) == ExpandLines(files, path, files[path], depth)
    ensures lines != [] ==>
      ExpandLines(files, path, lines, depth)
        == ExpandDirective(files, ReadLine(lines[0], path), depth) + ExpandLines(files, path, lines[1..], depth)
    ensures lines == [] ==> ExpandLines(files, path, lines, depth) == []
  {
  }

  lemma TooDeep(files: Files, path: Path, depth: nat)
    requires depth > 8
    ensures Expand(files, path, depth) == []
  {
  }

  /** The two maps `ParseConfigInto` fills. */
  datatype Routes = Routes(table: Table, alt: Table)

  function Apply(r: Routes, d: Directive): Routes {
    if d.Assign? then
      Routes(r.table[d.op := d.backend],
             if d.annotation.Some? then r.alt[d.op := d.annotation.value] else r.alt - {d.op})
    else r
  }

  function ApplyAll(r: Routes, ds: seq<Directive>): Routes
    decreases |ds|
  {
    if ds == [] then r else ApplyAll(Apply(r, ds[0]), ds[1..])
  }

  lemma {:induction false} ApplyConcat(r: Routes, a: seq<Directive>, b: seq<Directive>)
    ensures ApplyAll(r, a + b) == ApplyAll(ApplyAll(r, a), b)
    decreases |a|
  {
    if a == [] {
      assert a + b == b;
    } else {
      assert (a + b)[1..] == a[1..] + b;
      ApplyConcat(Apply(r, a[0]), a[1..], b);
    }
  }

  ghost predicate Assigns(ds: seq<Directive>, op: string) {
    exists i :: 0 <= i < |ds| && ds[i].Assign? && ds[i].op == op
  }

  ghost predicate LastFor(ds: seq<Directive>, op: string, k: int) {
    0 <= k < |ds| && ds[k].Assign? && ds[k].op == op &&
    forall j :: k < j < |ds| ==> !(ds[j].Assign? && ds[j].op == op)
  }

  /** Later assignments win, and only the last one's annotation survives. */
  lemma {:induction false} LastAssignmentWins(r: Routes, ds: seq<Directive>, op: string)
    ensures var r' := ApplyAll(r, ds);
      && (!Assigns(ds, op) ==> (op in r'.table <==> op in r.table) && (op in r.table ==> r'.table[op] == r.table[op]))
      && (!Assigns(ds, op) ==> (op in r'.alt <==> op in r.alt) && (op in r.alt ==> r'.alt[op] == r.alt[op]))
      && (forall k :: LastFor(ds, op, k) ==>
            && op in r'.table && r'.table[op] == ds[k].backend
            && (op in r'.alt <==> ds[k].annotation.Some?)
            && (op in r'.alt ==> r'.alt[op] == ds[k].annotation.value))
    decreases |ds|
  {
    if ds != [] {
      var rest := ds[1..];
      LastAssignmentWins(Apply(r, ds[0]), rest, op);
      assert forall i :: 0 <= i < |rest| ==> rest[i] == ds[i + 1];
      assert Assigns(rest, op) ==> Assigns(ds, op) by {
        if Assigns(rest, op) {
          var i :| 0 <= i < |rest| && rest[i].Assign? && rest[i].op == op;
          assert ds[i + 1].Assign? && ds[i + 1].op == op;
        }
      }
      forall k | LastFor(ds, op, k)
        ensures k > 0 ==> LastFor(rest, op, k - 1)
        ensures k == 0 ==> !Assigns(rest, op)
      {
      }
    }
  }

  /** Any assigned op has a last assignment. */
  lemma {:induction false} HasLast(ds: seq<Directive>, op: string) returns (k: nat)
    requires Assigns(ds, op)
    ensures LastFor(ds, op, k)
  {
    var n := |ds| - 1;
    if ds[n].Assign? && ds[n].op == op {
      k := n;
    } else {
      var i :| 0 <= i < |ds| && ds[i].Assign? && ds[i].op == op;
      assert ds[..n][i] == ds[i];
      k := HasLast(ds[..n], op);
    }
  }

  // ---------- The forced backend ----------

  datatype Mode = Unforced | ToFlagGems | ToVendor | ToTileOps

  predicate IsFlagGems(b: Backend) {
    b == FlagGemsCpp || b == FlagGems
  }

  lemma NoneIsNotFlagGems()
    ensures !IsFlagGems(NoBackend)
  {
  }

  predicate InFamily(mode: Mode, b: Backend) {
    match mode
    case Unforced => true
    case ToFlagGems => b == FlagGemsCpp || b == FlagGems
    case ToVendor => b != FlagGemsCpp && b != FlagGems && b != NoBackend
    case ToTileOps => b == TileOps
  }

  /** One op's backend under a forced mode; a missing annotation reads as `NoBackend`. */
  function Forced(mode: Mode, backend: Backend, annotated: Backend): Backend {
    match mode
    case Unforced => backend
    case ToTileOps => if annotated != TileOps || backend == TileOps then backend else TileOps
    case ToFlagGems =>
      var target := if IsFlagGems(backend) then backend else if IsFlagGems(annotated) then annotated else NoBackend;
      if target == NoBackend then backend else target
    case ToVendor =>
      var target :=
        if !IsFlagGems(backend) && backend != NoBackend then backend
        else if !IsFlagGems(annotated) && annotated != NoBackend then annotated else NoBackend;
      if target == NoBackend then backend else target
  }

  /** Forcing picks one of the two candidates, the configured one if it is in the family,
      and fails to reach the family only when neither is. */
  lemma ForcedIsASafeChoice(mode: Mode, backend: Backend, annotated: Backend)
    ensures var f := Forced(mode, backend, annotated);
      && (f == backend || f == annotated)
      && (InFamily(mode, backend) || !InFamily(mode, f) ==> f == backend)
      && (InFamily(mode, f) <==> InFamily(mode, backend) || InFamily(mode, annotated))
  {
    hide Forced, InFamily;
    if InFamily(mode, backend) {
      ForcedKeepsFamily(mode, backend, annotated);
    } else {
      ForcedFallsBack(mode, backend, annotated);
    }
  }

  lemma ForcedKeepsFamily(mode: Mode, backend: Backend, annotated: Backend)
    requires InFamily(mode, backend)
    ensures Forced(mode, backend, annotated) == backend
  {
  }

  lemma ForcedFallsBack(mode: Mode, backend: Backend, annotated: Backend)
    requires !InFamily(mode, backend)
    ensures Forced(mode, backend, annotated) == if InFamily(mode, annotated) then annotated else backend
  {
  }

  /** Forcing a table twice is forcing it once. */
  lemma ForcedIsIdempotent(mode: Mode, backend: Backend, annotated: Backend)
    ensures Forced(mode, Forced(mode, backend, annotated), annotated) == Forced(mode, backend, annotated)
  {
    NoneIsNotFlagGems();
    hide IsFlagGems;
  }

  function Annotation(alt: Table, op: string): Backend {
    if op in alt then alt[op] else NoBackend
  }

  // ---------- Overrides ----------

  function EscapeDots(op: string): string {
    if op == "" then "" else (if op[0] == '.' then "__" else [op[0]]) + EscapeDots(op[1..])
  }

  function OverrideKey(op: string): string {
    "FLAGOS_OP_" + EscapeDots(op)
  }

  /** A valid override for the op, if the environment has one; anything else is ignored. */
  function Override(env: map<string, string>, op: string): Option<Backend> {
    var key := OverrideKey(op);
    if key !in env || Strip(env[key]) == "" then None else ParseBackendName(Strip(env[key]))
  }

  /** Every dot of the op's name becomes two underscores in its variable's. */
  lemma {:induction false} KeyIs(a: string, b: string)
    requires '.' !in a
    ensures EscapeDots(a) == a && EscapeDots(a + "." + b) == a + "__" + EscapeDots(b)
  {
    if a == "" {
      assert a + "." + b == "." + b && ("." + b)[1..] == b;
    } else {
      assert (a + "." + b)[1..] == a[1..] + "." + b;
      KeyIs(a[1..], b);
    }
  }

  /** An op is overridden by the backend its variable spells, if it spells one. */
  lemma OverrideIs(env: map<string, string>, op: string, left: string, name: string, right: string)
    requires AllIn(left, " \t\n\U{0B}\U{0C}\r") && Bare(name, " \t\n\U{0B}\U{0C}\r") && AllIn(right, " \t\n\U{0B}\U{0C}\r")
    ensures "FLAGOS_OP_" + EscapeDots(op) !in env ==> Override(env, op) == None
    ensures "FLAGOS_OP_" + EscapeDots(op) in env && env["FLAGOS_OP_" + EscapeDots(op)] == left + name + right ==> Spells(name, Override(env, op))
  {
    hide ParseBackendName, Strip, Spells;
    StripIs(left, name, right);
    NamesAreSpelled(name);
    if name == "" { NoNameIsNoBackend(); }
  }

  lemma NoNameIsNoBackend()
    ensures ParseBackendName("") == None
  {
    assert |Lower("")| == 0;
  }

  // ---------- Loading ----------

  datatype Result<T> = Success(value: T) | Failure(path: Path)

  class Loader {
    var table: Table
    var alt: Table

    constructor ()
      ensures table == map[] && alt == map[]
    {
      table, alt := map[], map[];
    }

    /** `ParseConfigInto`, line by line, recursing at each include. */
    method ParseConfigInto(files: Files, path: Path, depth: nat)
      modifies this
      ensures Routes(table, alt) == ApplyAll(old(Routes(table, alt)), Expand(files, path, depth))
      decreases if depth > MAX_DEPTH then 0 else MAX_DEPTH + 1 - depth, 1
    {
      hide ReadLine;
      if depth > MAX_DEPTH { return; }
      if path !in files { return; }
      var lines := files[path];
      for i := 0 to |lines|
        invariant ApplyAll(old(Routes(table, alt)), ExpandLines(files, path, lines, depth))
               == ApplyAll(Routes(table, alt), ExpandLines(files, path, lines[i..], depth))
      {
        assert lines[i..][0] == lines[i] && lines[i..][1..] == lines[i + 1..];
        ApplyConcat(Routes(table, alt), ExpandDirective(files, ReadLine(lines[i], path), depth),
                    ExpandLines(files, path, lines[i + 1..], depth));
        Follow(files, ReadLine(lines[i], path), depth);
      }
    }

    method Follow(files: Files, d: Directive, depth: nat)
      requires depth <= MAX_DEPTH
      modifies this
      ensures Routes(table, alt) == ApplyAll(old(Routes(table, alt)), ExpandDirective(files, d, depth))
      decreases MAX_DEPTH + 1 - depth, 0
    {
      match d
      case Nothing =>
      case Include(inc) => ParseConfigInto(files, inc, depth + 1);
      case Assign(op, backend, annotation) =>
        ghost var before := Routes(table, alt);
        table := table[op := backend];
        alt := if annotation.Some? then alt[op := annotation.value] else alt - {op};
        assert ApplyAll(before, [d]) == ApplyAll(Apply(before, d), []) by { assert [d][1..] == []; }
    }

    /** `ApplyForcedBackend`: visits the ops in whatever order the table yields them. */
    method ApplyForcedBackend(mode: Mode)
      modifies this`table
      ensures table.Keys == old(table).Keys
      ensures forall op :: op in table ==> table[op] == Forced(mode, old(table)[op], Annotation(alt, op))
    {
      if mode == Unforced { return; }
      var todo := table.Keys;
      while todo != {}
        invariant todo <= table.Keys == old(table).Keys
        invariant forall op :: op in table ==>
          table[op] == if op in todo then old(table)[op] else Forced(mode, old(table)[op], Annotation(alt, op))
        decreases |todo|
      {
        var op :| op in todo;
        table := table[op := Forced(mode, table[op], Annotation(alt, op))];
        todo := todo - {op};
      }
    }

    method ApplyOverrides(env: map<string, string>)
      modifies this`table
      ensures table.Keys == old(table).Keys
      ensures forall op :: op in table ==>
        table[op] == if Override(env, op).Some? then Override(env, op).value else old(table)[op]
    {
      var todo := table.Keys;
      while todo != {}
        invariant todo <= table.Keys == old(table).Keys
        invariant forall op :: op in table ==>
          table[op] == if op !in todo && Override(env, op).Some? then Override(env, op).value else old(table)[op]
        decreases |todo|
      {
        var op :| op in todo;
        if Override(env, op).Some? { table := table[op := Override(env, op).value]; }
        todo := todo - {op};
      }
    }
  }

  /** `LoadBackendConfig`.  Only the file that was named must exist; every op that any
      reachable line assigns is routed by its override, or else by the forced image of its
      last assignment and of the annotation on that same line. */
  method LoadBackendConfig(files: Files, path: Path, mode: Mode, env: map<string, string>) returns (r: Result<Table>)
    ensures r.Failure? <==> path !in files
    ensures r.Success? ==> forall op :: op in r.value <==> Assigns(Expand(files, path, 0), op)
    ensures r.Success? ==> forall op, k :: op in r.value && LastFor(Expand(files, path, 0), op, k) ==>
      var d := Expand(files, path, 0)[k];
      r.value[op] ==
        if Override(env, op).Some? then Override(env, op).value
        else Forced(mode, d.backend, if d.annotation.Some? then d.annotation.value else NoBackend)
  {
    if path !in files { return Failure(path); }
    ghost var ds := Expand(files, path, 0);
    var loader := new Loader();
    loader.ParseConfigInto(files, path, 0);
    ghost var routes := ApplyAll(Routes(map[], map[]), ds);
    loader.ApplyForcedBackend(mode);
    loader.ApplyOverrides(env);
    forall op ensures op in loader.table <==> Assigns(ds, op) {
      LastAssignmentWins(Routes(map[], map[]), ds, op);
      if Assigns(ds, op) { var k := HasLast(ds, op); }
    }
    forall op, k | op in loader.table && LastFor(ds, op, k)
      ensures op in routes.table && routes.table[op] == ds[k].backend
      ensures Annotation(routes.alt, op) == if ds[k].annotation.Some? then ds[k].annotation.value else NoBackend
    {
      LastAssignmentWins(Routes(map[], map[]), ds, op);
    }
    r := Success(loader.table);
  }
}

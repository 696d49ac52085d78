/** app/pipeline/module_dependency.py: the module graph - owner tables, edges accumulated by nested
    loops over sets, and degrees. What a detail file exports, imports and needs, and the keys that a
    needed entry may match, are inputs. */
module ModuleDependency {
  import opened Results
  import opened Ordering
  import opened Sequences

  type Name = string

  /** The symbols and keys of one file. */
  datatype FileInfo = FileInfo(
    exports: seq<string>, imports: seq<string>, needed: seq<string>, stem: string, keys: set<string>)

  datatype Module = Module(name: Name, files: seq<string>)

  /** The modules in order, the information on a path, the keys a needed entry stands for, the external ones. */
  datatype Inputs = Inputs(
    modules: seq<Module>, info: string -> FileInfo, candidates: string -> set<string>, external: string -> bool)

  ghost predicate DistinctNames(modules: seq<Module>) {
    forall i, j | 0 <= i < j < |modules| :: modules[i].name != modules[j].name
  }

  // ---------- owner tables ----------

  type Owners = map<string, set<Name>>

  function OwnersOf(table: Owners, tag: string): set<Name> {
    if tag in table then table[tag] else {}
  }

  ghost predicate Tagged(m: Module, info: string -> FileInfo, tags: FileInfo -> set<string>, tag: string) {
    exists rel | rel in m.files :: tag in tags(info(rel))
  }

  function ExportTags(f: FileInfo): set<string> {
    set x | x in f.exports
  }

  function StemTag(f: FileInfo): set<string> {
    {f.stem}
  }

  function KeyTags(f: FileInfo): set<string> {
    f.keys
  }

  /** The modules with a file that carries the tag. */
  ghost function Carriers(modules: seq<Module>,
                          info: string -> FileInfo, tags: FileInfo -> set<string>, tag: string): set<Name> {
    set i | 0 <= i < |modules| && Tagged(modules[i], info, tags, tag) :: modules[i].name
  }

  function AddOwner(table: Owners, added: set<string>, m: Name): Owners {
    map l | l in table.Keys + added :: OwnersOf(table, l) + if l in added then {m} else {}
  }

  method CollectOwners(modules: seq<Module>, info: string -> FileInfo, tags: FileInfo -> set<string>)
    returns (table: Owners)
    ensures forall tag :: OwnersOf(table, tag) == Carriers(modules, info, tags, tag)
  {
    table := map[];
    for i := 0 to |modules|
      invariant forall tag :: OwnersOf(table, tag) == Carriers(modules[..i], info, tags, tag)
    {
      var m := modules[i];
      ghost var before := table;
      for j := 0 to |m.files|
        invariant forall tag :: OwnersOf(table, tag) == OwnersOf(before, tag)
                    + if Tagged(Module(m.name, m.files[..j]), info, tags, tag) then {m.name} else {}
      {
        FileTags(m, j, info, tags);
        table := AddOwner(table, tags(info(m.files[j])), m.name);
      }
      assert m.files[..|m.files|] == m.files;
      CarriersSnoc(modules, i, info, tags);
    }
    assert modules[..|modules|] == modules;
  }

  lemma FileTags(m: Module, j: nat, info: string -> FileInfo, tags: FileInfo -> set<string>)
    requires j < |m.files|
    ensures forall tag :: Tagged(Module(m.name, m.files[..j + 1]), info, tags, tag)
              <==> Tagged(Module(m.name, m.files[..j]), info, tags, tag) || tag in tags(info(m.files[j]))
  {
  }

  lemma CarriersSnoc(modules: seq<Module>, i: nat, info: string -> FileInfo, tags: FileInfo -> set<string>)
    requires i < |modules|
    ensures forall tag :: Carriers(modules[..i + 1], info, tags, tag) == Carriers(modules[..i], info, tags, tag)
              + if Tagged(modules[i], info, tags, tag) then {modules[i].name} else {}
  {
  }

  // ---------- edges ----------

  datatype Kind = SymbolImport | BinaryNeeded | SourceImport

  datatype Payload = Payload(
    weight: nat, symbols: seq<string>, needed: seq<string>, files: seq<string>, kinds: seq<Kind>)

  datatype Tables = Tables(exports: Owners, libs: Owners, keys: Owners)

  type Edges = map<(Name, Name), Payload>

  function Capped(xs: seq<string>, x: string): seq<string> {
    if x in xs || |xs| >= 30 then xs else xs + [x]
  }

  function WithKind(kinds: seq<Kind>, k: Kind): seq<Kind> {
    if k in kinds then kinds else kinds + [k]
  }

  function PayloadOr(e: Option<Payload>): Payload {
    e.GetOr(Payload(0, [], [], [], []))
  }

  /** One imported symbol of file rel that the target exports. */
  function HitSymbol(p: Payload, rel: string, sym: string): Payload {
    Payload(p.weight + 1, Capped(p.symbols, sym), p.needed, Capped(p.files, rel), WithKind(p.kinds, SymbolImport))
  }

  /** One needed library that the target owns. */
  function HitLib(p: Payload, rel: string, lib: string): Payload {
    Payload(p.weight + 5, p.symbols, Capped(p.needed, lib), Capped(p.files, rel), WithKind(p.kinds, BinaryNeeded))
  }

  /** One key of a needed entry that identifies a source file of the target. */
  function HitKey(p: Payload, rel: string, lib: string): Payload {
    Payload(p.weight + 3, p.symbols, Capped(p.needed, lib), Capped(p.files, rel), WithKind(p.kinds, SourceImport))
  }

  function HitKeys(e: Option<Payload>, rel: string, lib: string, n: nat): Option<Payload> {
    if n == 0 then e else Some(HitKey(PayloadOr(HitKeys(e, rel, lib, n - 1)), rel, lib))
  }

  // The modules that export a symbol, own a library and carry a key.

  ghost function Exporters(inp: Inputs, sym: string): set<Name> {
    Carriers(inp.modules, inp.info, ExportTags, sym)
  }

  ghost function LibOwners(inp: Inputs, lib: string): set<Name> {
    Carriers(inp.modules, inp.info, StemTag, lib)
  }

  ghost function KeyOwners(inp: Inputs, key: string): set<Name> {
    Carriers(inp.modules, inp.info, KeyTags, key)
  }

  ghost function MatchingKeys(inp: Inputs, lib: string, dst: Name): set<string> {
    set k | k in inp.candidates(lib) && !inp.external(k) && dst in KeyOwners(inp, k)
  }

  /** What one edge looks like after the imports of a file; the same for its needed entries and for files. */
  ghost function AfterImports(e: Option<Payload>, inp: Inputs, rel: string, imports: seq<string>, dst: Name)
    : Option<Payload>
  {
    if imports == [] then e
    else
      var before := AfterImports(e, inp, rel, Init(imports), dst);
      if dst in Exporters(inp, Last(imports)) then Some(HitSymbol(PayloadOr(before), rel, Last(imports))) else before
  }

  ghost function AfterLib(e: Option<Payload>, inp: Inputs, rel: string, lib: string, dst: Name): Option<Payload> {
    HitKeys(if dst in LibOwners(inp, lib) then Some(HitLib(PayloadOr(e), rel, lib)) else e, rel, lib,
            |MatchingKeys(inp, lib, dst)|)
  }

  ghost function AfterNeeded(e: Option<Payload>, inp: Inputs, rel: string, needed: seq<string>, dst: Name)
    : Option<Payload>
  {
    if needed == [] then e
    else AfterLib(AfterNeeded(e, inp, rel, Init(needed), dst), inp, rel, Last(needed), dst)
  }

  ghost function AfterFile(e: Option<Payload>, inp: Inputs, rel: string, dst: Name): Option<Payload> {
    AfterNeeded(AfterImports(e, inp, rel, inp.info(rel).imports, dst), inp, rel, inp.info(rel).needed, dst)
  }

  ghost function AfterFiles(e: Option<Payload>, inp: Inputs, files: seq<string>, dst: Name): Option<Payload> {
    if files == [] then e else AfterFile(AfterFiles(e, inp, Init(files), dst), inp, Last(files), dst)
  }

  /** The edge from module m to dst, a function of the inputs alone; never within one module. */
  ghost function EdgeOf(inp: Inputs, m: Module, dst: Name): Option<Payload> {
    if dst == m.name then None else AfterFiles(None, inp, m.files, dst)
  }

  function Lookup(edges: Edges, s: Name, d: Name): Option<Payload> {
    if (s, d) in edges then Some(edges[(s, d)]) else None
  }

  /** One hit on the edge from src to every owner but src itself, with the owners met in any order. */
  method AddHits(edges: Edges, src: Name, owners: set<Name>, hit: Payload -> Payload) returns (out: Edges)
    ensures forall s, d :: Lookup(out, s, d) ==
              if s == src && d in owners && d != src then Some(hit(PayloadOr(Lookup(edges, s, d))))
              else Lookup(edges, s, d)
  {
    out := edges;
    var todo := owners;
    while todo != {}
      invariant todo <= owners
      invariant forall s, d :: Lookup(out, s, d) ==
                  if s == src && d in owners - todo && d != src then Some(hit(PayloadOr(Lookup(edges, s, d))))
                  else Lookup(edges, s, d)
      decreases |todo|
    {
      var dst :| dst in todo;
      if dst != src {
        out := out[(src, dst) := hit(PayloadOr(Lookup(out, src, dst)))];
      }
      todo := todo - {dst};
    }
  }

  /** The tables hold the owners. */
  ghost predicate TablesOf(inp: Inputs, t: Tables) {
    && (forall tag :: OwnersOf(t.exports, tag) == Exporters(inp, tag))
    && (forall tag :: OwnersOf(t.libs, tag) == LibOwners(inp, tag))
    && (forall tag :: OwnersOf(t.keys, tag) == KeyOwners(inp, tag))
  }

  ghost function KeysDone(inp: Inputs, done: set<string>, dst: Name): set<string> {
    set k | k in done && !inp.external(k) && dst in KeyOwners(inp, k)
  }

  lemma OneKeyMore(inp: Inputs, done: set<string>, key: string, d: Name)
    requires key !in done
    ensures |KeysDone(inp, done + {key}, d)| == |KeysDone(inp, done, d)|
              + if !inp.external(key) && d in KeyOwners(inp, key) then 1 else 0
  {
    var before := KeysDone(inp, done, d);
    if !inp.external(key) && d in KeyOwners(inp, key) {
      assert KeysDone(inp, done + {key}, d) == before + {key};
    } else {
      assert KeysDone(inp, done + {key}, d) == before;
    }
  }

  /** Every edge from src has one hit for each of the keys in `done` that its target carries. */
  ghost predicate KeysApplied(edges: Edges, out: Edges, inp: Inputs, src: Name, rel: string, lib: string,
                              done: set<string>) {
    forall s, d :: Lookup(out, s, d) ==
      if s == src && d != src then HitKeys(Lookup(edges, s, d), rel, lib, |KeysDone(inp, done, d)|)
      else Lookup(edges, s, d)
  }

  lemma KeysNone(edges: Edges, inp: Inputs, src: Name, rel: string, lib: string)
    ensures KeysApplied(edges, edges, inp, src, rel, lib, {})
  {
    assert forall d :: KeysDone(inp, {}, d) == {};
  }

  lemma KeysAll(edges: Edges, out: Edges, inp: Inputs, src: Name, rel: string, lib: string)
    requires KeysApplied(edges, out, inp, src, rel, lib, inp.candidates(lib))
    ensures forall s, d :: Lookup(out, s, d) ==
              if s == src && d != src then HitKeys(Lookup(edges, s, d), rel, lib, |MatchingKeys(inp, lib, d)|)
              else Lookup(edges, s, d)
  {
    assert forall d :: KeysDone(inp, inp.candidates(lib), d) == MatchingKeys(inp, lib, d);
  }

  lemma KeyStep(edges: Edges, before: Edges, after: Edges, inp: Inputs, src: Name, rel: string, lib: string,
                done: set<string>, key: string)
    requires KeysApplied(edges, before, inp, src, rel, lib, done) && key !in done
    requires forall s, d :: Lookup(after, s, d) ==
               if s == src && !inp.external(key) && d in KeyOwners(inp, key) && d != src
               then Some(HitKey(PayloadOr(Lookup(before, s, d)), rel, lib)) else Lookup(before, s, d)
    ensures KeysApplied(edges, after, inp, src, rel, lib, done + {key})
  {
    forall s, d ensures Lookup(after, s, d) ==
        if s == src && d != src then HitKeys(Lookup(edges, s, d), rel, lib, |KeysDone(inp, done + {key}, d)|)
        else Lookup(edges, s, d)
    {
      OneKeyMore(inp, done, key, d);
    }
  }

  /** The keys of one needed entry, met in any order. */
  method AddKeys(edges: Edges, inp: Inputs, t: Tables, src: Name, rel: string, lib: string) returns (out: Edges)
    requires TablesOf(inp, t)
    ensures forall s, d :: Lookup(out, s, d) ==
              if s == src && d != src then HitKeys(Lookup(edges, s, d), rel, lib, |MatchingKeys(inp, lib, d)|)
              else Lookup(edges, s, d)
  {
    out := edges;
    var todo := inp.candidates(lib);
    ghost var done: set<string> := {};
    KeysNone(edges, inp, src, rel, lib);
    while todo != {}
      invariant done + todo == inp.candidates(lib) && done !! todo
      invariant KeysApplied(edges, out, inp, src, rel, lib, done)
      decreases |todo|
    {
      var key :| key in todo;
      ghost var before := out;
      if !inp.external(key) {
        out := AddHits(out, src, OwnersOf(t.keys, key), p => HitKey(p, rel, lib));
      }
      KeyStep(edges, before, out, inp, src, rel, lib, done, key);
      done := done + {key};
      todo := todo - {key};
    }
    KeysAll(edges, out, inp, src, rel, lib);
  }

  method AddFile(edges: Edges, inp: Inputs, t: Tables, src: Name, rel: string) returns (out: Edges)
    requires TablesOf(inp, t)
    ensures forall s, d :: Lookup(out, s, d) ==
              if s == src && d != src then AfterFile(Lookup(edges, s, d), inp, rel, d) else Lookup(edges, s, d)
  {
    out := edges;
    var imports, needed := inp.info(rel).imports, inp.info(rel).needed;
    for k := 0 to |imports|
      invariant forall s, d :: Lookup(out, s, d) ==
                  if s == src && d != src then AfterImports(Lookup(edges, s, d), inp, rel, imports[..k], d)
                  else Lookup(edges, s, d)
    {
      NextPrefix(imports, k);
      out := AddHits(out, src, OwnersOf(t.exports, imports[k]), p => HitSymbol(p, rel, imports[k]));
    }
    NextPrefix(imports, |imports|);
    ghost var imported := out;
    for k := 0 to |needed|
      invariant forall s, d :: Lookup(out, s, d) ==
                  if s == src && d != src then AfterNeeded(Lookup(imported, s, d), inp, rel, needed[..k], d)
                  else Lookup(edges, s, d)
    {
      NextPrefix(needed, k);
      out := AddHits(out, src, OwnersOf(t.libs, needed[k]), p => HitLib(p, rel, needed[k]));
      out := AddKeys(out, inp, t, src, rel, needed[k]);
    }
    NextPrefix(needed, |needed|);
  }

  lemma NextPrefix<T>(xs: seq<T>, k: nat)
    requires k <= |xs|
    ensures k < |xs| ==> Init(xs[..k + 1]) == xs[..k] && Last(xs[..k + 1]) == xs[k]
    ensures k == |xs| ==> xs[..k] == xs
  {
  }

  method AddModule(edges: Edges, inp: Inputs, t: Tables, m: Module) returns (out: Edges)
    requires TablesOf(inp, t) && forall d :: Lookup(edges, m.name, d) == None
    ensures forall s, d :: Lookup(out, s, d) == if s == m.name then EdgeOf(inp, m, d) else Lookup(edges, s, d)
  {
    out := edges;
    for j := 0 to |m.files|
      invariant forall s, d :: Lookup(out, s, d) ==
                  if s == m.name && d != m.name then AfterFiles(None, inp, m.files[..j], d) else Lookup(edges, s, d)
    {
      NextPrefix(m.files, j);
      out := AddFile(out, inp, t, m.name, m.files[j]);
    }
    NextPrefix(m.files, |m.files|);
  }

  /** The accumulation loops of build_module_dependency_graph. Every edge is what its own two modules
      determine, so the order in which the sets of owners and keys are met does not matter. */
  method BuildEdges(inp: Inputs) returns (edges: Edges)
    requires DistinctNames(inp.modules)
    ensures forall i, d | 0 <= i < |inp.modules| ::
              Lookup(edges, inp.modules[i].name, d) == EdgeOf(inp, inp.modules[i], d)
    ensures forall s, d | (s, d) in edges :: exists i :: 0 <= i < |inp.modules| && inp.modules[i].name == s
  {
    var exports := CollectOwners(inp.modules, inp.info, ExportTags);
    var libs := CollectOwners(inp.modules, inp.info, StemTag);
    var keys := CollectOwners(inp.modules, inp.info, KeyTags);
    var t := Tables(exports, libs, keys);
    edges := map[];
    for i := 0 to |inp.modules|
      invariant forall k, d | 0 <= k < i :: Lookup(edges, inp.modules[k].name, d) == EdgeOf(inp, inp.modules[k], d)
      invariant forall s, d | (s, d) in edges :: exists k :: 0 <= k < i && inp.modules[k].name == s
    {
      ghost var before := edges;
      edges := AddModule(edges, inp, t, inp.modules[i]);
      forall s, d | (s, d) in edges ensures exists k :: 0 <= k < i + 1 && inp.modules[k].name == s {
        if s != inp.modules[i].name { assert Lookup(before, s, d) == Lookup(edges, s, d); }
      }
    }
  }

  // ---------- what an edge says, on the inputs alone ----------

  /** A file of module dst has this export, library stem or key. */
  ghost predicate Exports(inp: Inputs, dst: Name, sym: string) {
    exists i, rel :: 0 <= i < |inp.modules| && inp.modules[i].name == dst && rel in inp.modules[i].files
                     && sym in inp.info(rel).exports
  }

  ghost predicate OwnsLib(inp: Inputs, dst: Name, lib: string) {
    exists i, rel :: 0 <= i < |inp.modules| && inp.modules[i].name == dst && rel in inp.modules[i].files
                     && lib == inp.info(rel).stem
  }

  ghost predicate HasKey(inp: Inputs, dst: Name, key: string) {
    exists i, rel :: 0 <= i < |inp.modules| && inp.modules[i].name == dst && rel in inp.modules[i].files
                     && key in inp.info(rel).keys
  }

  /** Of file number `file` the import or needed entry number `entry` concerns the target; a needed entry once as a
      library and once for each key. */
  datatype Hit = Hit(kind: Kind, file: nat, entry: nat, key: string, name: string, path: string)

  datatype Hits = Hits(imports: set<Hit>, libs: set<Hit>, keys: set<Hit>) {
    function Needs(): set<Hit> {
      libs + keys
    }

    function All(): set<Hit> {
      imports + libs + keys
    }
  }

  /** The order in which the loops meet hits; the keys of one entry are met in any order. */
  predicate Before(p: Hit, q: Hit) {
    p.file < q.file || (p.file == q.file && BeforeInFile(p, q))
  }

  predicate BeforeInFile(p: Hit, q: Hit) {
    if p.kind.SymbolImport? then !q.kind.SymbolImport? || p.entry < q.entry
    else !q.kind.SymbolImport?
         && (p.entry < q.entry || (p.entry == q.entry && p.kind.BinaryNeeded? && q.kind.SourceImport?))
  }

  ghost function ImportsFrom(inp: Inputs, j: nat, rel: string, imports: seq<string>, dst: Name): set<Hit> {
    set k: nat | k < |imports| && Exports(inp, dst, imports[k]) :: Hit(SymbolImport, j, k, "", imports[k], rel)
  }

  ghost function LibsFrom(inp: Inputs, j: nat, rel: string, needed: seq<string>, dst: Name): set<Hit> {
    set k: nat | k < |needed| && OwnsLib(inp, dst, needed[k]) :: Hit(BinaryNeeded, j, k, "", needed[k], rel)
  }

  ghost function KeysFrom(inp: Inputs, j: nat, rel: string, needed: seq<string>, dst: Name): set<Hit> {
    set k: nat, key | k < |needed| && key in inp.candidates(needed[k]) && !inp.external(key) && HasKey(inp, dst, key)
      :: Hit(SourceImport, j, k, key, needed[k], rel)
  }

  /** The hits of the files on module dst. */
  ghost function HitsOf(inp: Inputs, files: seq<string>, dst: Name): Hits {
    Hits(set j: nat, h | j < |files| && h in ImportsFrom(inp, j, files[j], inp.info(files[j]).imports, dst) :: h,
         set j: nat, h | j < |files| && h in LibsFrom(inp, j, files[j], inp.info(files[j]).needed, dst) :: h,
         set j: nat, h | j < |files| && h in KeysFrom(inp, j, files[j], inp.info(files[j]).needed, dst) :: h)
  }

  function NameOf(h: Hit): string {
    h.name
  }

  function PathOf(h: Hit): string {
    h.path
  }

  function KindOf(h: Hit): Kind {
    h.kind
  }

  /** Hit p has value number a, and comes before every hit of a value that is not among the first a + 1. */
  ghost predicate First<T(!new)>(p: Hit, xs: seq<T>, a: nat, hits: set<Hit>, of: Hit -> T)
    requires a < |xs|
  {
    p in hits && of(p) == xs[a] && forall q | q in hits && NotYet(of(q), xs, a) :: Before(p, q)
  }

  predicate NotYet<T(==)>(x: T, xs: seq<T>, a: nat)
    requires a < |xs|
  {
    forall b | 0 <= b <= a :: x != xs[b]
  }

  ghost predicate HasFirst<T(!new)>(xs: seq<T>, a: nat, hits: set<Hit>, of: Hit -> T)
    requires a < |xs|
  {
    exists p :: First(p, xs, a, hits, of)
  }

  /** The values of the hits in the order of their first hits, each once, all of them or, when capped, at most 30. */
  ghost predicate FirstSeen<T(!new)>(xs: seq<T>, hits: set<Hit>, of: Hit -> T, capped: bool) {
    && (forall a, b | 0 <= a < b < |xs| :: xs[a] != xs[b])
    && (forall a | 0 <= a < |xs| :: HasFirst(xs, a, hits, of))
    && (capped ==> |xs| <= 30)
    && ((capped && |xs| == 30) || forall h | h in hits :: of(h) in xs)
  }

  /** One for every import, five for every owned library and three for every key; symbols, needed entries, files
      and kinds in the order of their first hits. */
  ghost predicate Describes(p: Payload, hits: Hits) {
    && p.weight == |hits.imports| + 5 * |hits.libs| + 3 * |hits.keys|
    && FirstSeen(p.symbols, hits.imports, NameOf, true)
    && FirstSeen(p.needed, hits.Needs(), NameOf, true)
    && FirstSeen(p.files, hits.All(), PathOf, true)
    && FirstSeen(p.kinds, hits.All(), KindOf, false)
  }

  /** There is an edge exactly when there is a hit. */
  ghost predicate Says(e: Option<Payload>, hits: Hits) {
    (e.Some? <==> hits.All() != {}) && Describes(PayloadOr(e), hits)
  }

  function Added<T(==)>(xs: seq<T>, x: T, capped: bool): seq<T> {
    if x in xs || (capped && |xs| >= 30) then xs else xs + [x]
  }

  /** All these hits come later than the others. */
  ghost predicate AllBefore(hits: set<Hit>, more: set<Hit>) {
    forall q, h | q in hits && h in more :: Before(q, h)
  }

  lemma FirstLater<T(!new)>(p: Hit, xs: seq<T>, ys: seq<T>, a: nat, hits: set<Hit>, of: Hit -> T, more: set<Hit>)
    requires a < |xs| && First(p, xs, a, hits, of) && xs <= ys && AllBefore(hits, more)
    ensures First(p, ys, a, hits + more, of)
  {
    forall q | q in hits && NotYet(of(q), ys, a) ensures Before(p, q) { assert NotYet(of(q), xs, a); }
  }

  /** Later hits of one value put it at the end, if it is not there already. */
  lemma SeenMore<T(!new)>(xs: seq<T>, hits: set<Hit>, of: Hit -> T, capped: bool, more: set<Hit>, x: T)
    requires FirstSeen(xs, hits, of, capped) && more != {} && AllBefore(hits, more)
    requires forall h | h in more :: of(h) == x
    ensures FirstSeen(Added(xs, x, capped), hits + more, of, capped)
  {
    var ys := Added(xs, x, capped);
    forall a | 0 <= a < |ys| ensures HasFirst(ys, a, hits + more, of) {
      if a < |xs| {
        assert HasFirst(xs, a, hits, of);
        var p :| First(p, xs, a, hits, of);
        FirstLater(p, xs, ys, a, hits, of, more);
      } else {
        var p :| p in more;
        forall q | q in hits + more ensures !NotYet(of(q), ys, a) {
          if q in hits {
            var b :| 0 <= b < |xs| && xs[b] == of(q);
            assert ys[b] == of(q);
          } else {
            assert ys[a] == of(q);
          }
        }
        assert First(p, ys, a, hits + more, of);
      }
    }
  }

  lemma {:induction false} HitKeysIs(e: Option<Payload>, rel: string, lib: string, n: nat)
    requires n > 0
    ensures HitKeys(e, rel, lib, n) == Some(HitKeysOf(PayloadOr(e), rel, lib, n))
  {
    if n > 1 { HitKeysIs(e, rel, lib, n - 1); }
  }

  function HitKeysOf(p: Payload, rel: string, lib: string, n: nat): Payload {
    HitKey(p, rel, lib).(weight := p.weight + 3 * n)
  }

  lemma OwnersIff(inp: Inputs, dst: Name, tag: string)
    ensures dst in Exporters(inp, tag) <==> Exports(inp, dst, tag)
    ensures dst in LibOwners(inp, tag) <==> OwnsLib(inp, dst, tag)
    ensures dst in KeyOwners(inp, tag) <==> HasKey(inp, dst, tag)
  {
  }

  // One induction over the loops, for any law about an edge and its hits that later hits keep.

  type Law = (Option<Payload>, Hits) -> bool

  function PlusImport(hits: Hits, h: Hit): Hits {
    hits.(imports := hits.imports + {h})
  }

  function PlusLib(hits: Hits, h: Hit): Hits {
    hits.(libs := hits.libs + {h})
  }

  function PlusKeys(hits: Hits, more: set<Hit>): Hits {
    hits.(keys := hits.keys + more)
  }

  ghost predicate NextImport(hits: Hits, h: Hit) {
    h.kind == SymbolImport && AllBefore(hits.All(), {h})
  }

  ghost predicate NextLib(hits: Hits, h: Hit) {
    h.kind == BinaryNeeded && AllBefore(hits.All(), {h})
  }

  ghost predicate NextKeys(hits: Hits, more: set<Hit>, rel: string, lib: string) {
    && more != {} && AllBefore(hits.All(), more)
    && forall h | h in more :: h.kind == SourceImport && h.name == lib && h.path == rel
  }

  ghost predicate KeptByImports(law: Law) {
    forall e, hits, h {:trigger law(e, hits), NextImport(hits, h)} | law(e, hits) && NextImport(hits, h) ::
      law(Some(HitSymbol(PayloadOr(e), h.path, h.name)), PlusImport(hits, h))
  }

  ghost predicate KeptByLibs(law: Law) {
    forall e, hits, h {:trigger law(e, hits), NextLib(hits, h)} | law(e, hits) && NextLib(hits, h) ::
      law(Some(HitLib(PayloadOr(e), h.path, h.name)), PlusLib(hits, h))
  }

  ghost predicate KeptByKeys(law: Law) {
    forall e, hits, more, rel, lib {:trigger law(e, hits), NextKeys(hits, more, rel, lib)}
        | law(e, hits) && NextKeys(hits, more, rel, lib) ::
      law(Some(HitKeysOf(PayloadOr(e), rel, lib, |more|)), PlusKeys(hits, more))
  }

  lemma {:induction false} AfterImportsKeeps(law: Law, e: Option<Payload>, hits: Hits, inp: Inputs, j: nat,
                                             rel: string, imports: seq<string>, dst: Name)
    requires KeptByImports(law) && law(e, hits) && forall h | h in hits.All() :: h.file < j
    ensures law(AfterImports(e, inp, rel, imports, dst),
                hits.(imports := hits.imports + ImportsFrom(inp, j, rel, imports, dst)))
  {
    if imports == [] {
      assert hits.imports + ImportsFrom(inp, j, rel, imports, dst) == hits.imports;
    } else {
      var k := |imports| - 1;
      var before := hits.(imports := hits.imports + ImportsFrom(inp, j, rel, Init(imports), dst));
      var h := Hit(SymbolImport, j, k, "", imports[k], rel);
      AfterImportsKeeps(law, e, hits, inp, j, rel, Init(imports), dst);
      OwnersIff(inp, dst, imports[k]);
      OneImportMore(inp, j, rel, imports, dst);
      if Exports(inp, dst, imports[k]) {
        assert NextImport(before, h);
        assert PlusImport(before, h).imports == hits.imports + ImportsFrom(inp, j, rel, imports, dst);
      } else {
        assert before.imports == hits.imports + ImportsFrom(inp, j, rel, imports, dst);
      }
    }
  }

  lemma OneImportMore(inp: Inputs, j: nat, rel: string, imports: seq<string>, dst: Name)
    requires imports != []
    ensures var k := |imports| - 1;
            ImportsFrom(inp, j, rel, imports, dst) == ImportsFrom(inp, j, rel, Init(imports), dst)
              + (if Exports(inp, dst, imports[k]) then {Hit(SymbolImport, j, k, "", imports[k], rel)} else {})
  {
  }

  ghost function EntryKeys(j: nat, k: nat, rel: string, lib: string, keys: set<string>): set<Hit> {
    set key | key in keys :: Hit(SourceImport, j, k, key, lib, rel)
  }

  lemma {:induction false} EntryKeysCount(j: nat, k: nat, rel: string, lib: string, keys: set<string>)
    ensures |EntryKeys(j, k, rel, lib, keys)| == |keys|
    decreases |keys|
  {
    if keys != {} {
      var x :| x in keys;
      EntryKeysCount(j, k, rel, lib, keys - {x});
      assert EntryKeys(j, k, rel, lib, keys)
          == EntryKeys(j, k, rel, lib, keys - {x}) + {Hit(SourceImport, j, k, x, lib, rel)};
    }
  }

  ghost function OwnedLib(inp: Inputs, j: nat, k: nat, rel: string, lib: string, dst: Name): set<Hit> {
    if OwnsLib(inp, dst, lib) then {Hit(BinaryNeeded, j, k, "", lib, rel)} else {}
  }

  lemma OneNeedMore(inp: Inputs, j: nat, rel: string, needed: seq<string>, dst: Name)
    requires needed != []
    ensures var k := |needed| - 1;
            && LibsFrom(inp, j, rel, needed, dst)
               == LibsFrom(inp, j, rel, Init(needed), dst) + OwnedLib(inp, j, k, rel, needed[k], dst)
            && KeysFrom(inp, j, rel, needed, dst)
               == KeysFrom(inp, j, rel, Init(needed), dst)
                  + EntryKeys(j, k, rel, needed[k], MatchingKeys(inp, needed[k], dst))
  {
    forall key ensures dst in KeyOwners(inp, key) <==> HasKey(inp, dst, key) { OwnersIff(inp, dst, key); }
  }

  lemma AfterOwnedKeeps(law: Law, e: Option<Payload>, hits: Hits, inp: Inputs, j: nat, k: nat, rel: string,
                        lib: string, dst: Name)
    requires KeptByLibs(law) && law(e, hits) && AllBefore(hits.All(), {Hit(BinaryNeeded, j, k, "", lib, rel)})
    ensures law(if dst in LibOwners(inp, lib) then Some(HitLib(PayloadOr(e), rel, lib)) else e,
                hits.(libs := hits.libs + OwnedLib(inp, j, k, rel, lib, dst)))
  {
    var h := Hit(BinaryNeeded, j, k, "", lib, rel);
    OwnersIff(inp, dst, lib);
    if OwnsLib(inp, dst, lib) {
      assert NextLib(hits, h);
      assert PlusLib(hits, h).libs == hits.libs + OwnedLib(inp, j, k, rel, lib, dst);
    } else {
      assert hits.libs + OwnedLib(inp, j, k, rel, lib, dst) == hits.libs;
    }
  }

  lemma AfterEntryKeysKeeps(law: Law, f: Option<Payload>, hits: Hits, j: nat, k: nat, rel: string, lib: string,
                            keys: set<string>)
    requires KeptByKeys(law) && law(f, hits) && AllBefore(hits.All(), EntryKeys(j, k, rel, lib, keys))
    ensures law(HitKeys(f, rel, lib, |keys|), hits.(keys := hits.keys + EntryKeys(j, k, rel, lib, keys)))
  {
    var more := EntryKeys(j, k, rel, lib, keys);
    EntryKeysCount(j, k, rel, lib, keys);
    if |keys| > 0 {
      HitKeysIs(f, rel, lib, |keys|);
      assert NextKeys(hits, more, rel, lib);
      assert PlusKeys(hits, more).keys == hits.keys + more;
    } else {
      assert hits.keys + more == hits.keys;
    }
  }

  /** One needed entry: its library hit, then its key hits. */
  lemma AfterLibKeeps(law: Law, e: Option<Payload>, hits: Hits, inp: Inputs, j: nat, k: nat, rel: string, lib: string,
                      dst: Name)
    requires KeptByLibs(law) && KeptByKeys(law) && law(e, hits)
    requires forall h | h in hits.All() :: h.file < j || (h.file == j && (h.kind.SymbolImport? || h.entry < k))
    ensures law(AfterLib(e, inp, rel, lib, dst),
                Hits(hits.imports, hits.libs + OwnedLib(inp, j, k, rel, lib, dst),
                     hits.keys + EntryKeys(j, k, rel, lib, MatchingKeys(inp, lib, dst))))
  {
    var mid := hits.(libs := hits.libs + OwnedLib(inp, j, k, rel, lib, dst));
    AfterOwnedKeeps(law, e, hits, inp, j, k, rel, lib, dst);
    AfterEntryKeysKeeps(law, if dst in LibOwners(inp, lib) then Some(HitLib(PayloadOr(e), rel, lib)) else e, mid,
                        j, k, rel, lib, MatchingKeys(inp, lib, dst));
  }

  lemma {:induction false} AfterNeededKeeps(law: Law, e: Option<Payload>, hits: Hits, inp: Inputs, j: nat,
                                            rel: string, needed: seq<string>, dst: Name)
    requires KeptByLibs(law) && KeptByKeys(law) && law(e, hits)
    requires forall h | h in hits.All() :: h.file < j || (h.file == j && h.kind.SymbolImport?)
    ensures law(AfterNeeded(e, inp, rel, needed, dst),
                Hits(hits.imports, hits.libs + LibsFrom(inp, j, rel, needed, dst),
                     hits.keys + KeysFrom(inp, j, rel, needed, dst)))
  {
    if needed == [] {
      assert hits.libs + LibsFrom(inp, j, rel, needed, dst) == hits.libs;
      assert hits.keys + KeysFrom(inp, j, rel, needed, dst) == hits.keys;
    } else {
      var k := |needed| - 1;
      var before := Hits(hits.imports, hits.libs + LibsFrom(inp, j, rel, Init(needed), dst),
                         hits.keys + KeysFrom(inp, j, rel, Init(needed), dst));
      AfterNeededKeeps(law, e, hits, inp, j, rel, Init(needed), dst);
      OneNeedMore(inp, j, rel, needed, dst);
      AfterLibKeeps(law, AfterNeeded(e, inp, rel, Init(needed), dst), before, inp, j, k, rel, needed[k], dst);
      assert before.libs + OwnedLib(inp, j, k, rel, needed[k], dst) == hits.libs + LibsFrom(inp, j, rel, needed, dst);
      assert before.keys + EntryKeys(j, k, rel, needed[k], MatchingKeys(inp, needed[k], dst))
          == hits.keys + KeysFrom(inp, j, rel, needed, dst);
    }
  }

  lemma OneFileMore(inp: Inputs, files: seq<string>, dst: Name)
    requires files != []
    ensures var before, after := HitsOf(inp, Init(files), dst), HitsOf(inp, files, dst);
            var j, rel := |files| - 1, Last(files);
            && after.imports == before.imports + ImportsFrom(inp, j, rel, inp.info(rel).imports, dst)
            && after.libs == before.libs + LibsFrom(inp, j, rel, inp.info(rel).needed, dst)
            && after.keys == before.keys + KeysFrom(inp, j, rel, inp.info(rel).needed, dst)
  {
  }

  lemma {:induction false} AfterFilesKeeps(law: Law, inp: Inputs, files: seq<string>, dst: Name)
    requires KeptByImports(law) && KeptByLibs(law) && KeptByKeys(law) && law(None, Hits({}, {}, {}))
    ensures law(AfterFiles(None, inp, files, dst), HitsOf(inp, files, dst))
  {
    if files == [] {
      assert HitsOf(inp, files, dst) == Hits({}, {}, {});
    } else {
      var j, rel := |files| - 1, Last(files);
      var before, hits := AfterFiles(None, inp, Init(files), dst), HitsOf(inp, Init(files), dst);
      AfterFilesKeeps(law, inp, Init(files), dst);
      OneFileMore(inp, files, dst);
      AfterImportsKeeps(law, before, hits, inp, j, rel, inp.info(rel).imports, dst);
      var mid := hits.(imports := hits.imports + ImportsFrom(inp, j, rel, inp.info(rel).imports, dst));
      AfterNeededKeeps(law, AfterImports(before, inp, rel, inp.info(rel).imports, dst), mid, inp, j, rel,
                       inp.info(rel).needed, dst);
    }
  }

  // The laws.

  ghost predicate SaysWeight(e: Option<Payload>, hits: Hits) {
    PayloadOr(e).weight == |hits.imports| + 5 * |hits.libs| + 3 * |hits.keys|
  }

  ghost predicate SaysSymbols(e: Option<Payload>, hits: Hits) {
    FirstSeen(PayloadOr(e).symbols, hits.imports, NameOf, true)
  }

  ghost predicate SaysNeeded(e: Option<Payload>, hits: Hits) {
    FirstSeen(PayloadOr(e).needed, hits.Needs(), NameOf, true)
  }

  ghost predicate SaysFiles(e: Option<Payload>, hits: Hits) {
    FirstSeen(PayloadOr(e).files, hits.All(), PathOf, true)
  }

  ghost predicate SaysKinds(e: Option<Payload>, hits: Hits) {
    FirstSeen(PayloadOr(e).kinds, hits.All(), KindOf, false)
  }

  ghost predicate SaysThere(e: Option<Payload>, hits: Hits) {
    e.Some? <==> hits.All() != {}
  }

  lemma WeightKept()
    ensures KeptByImports(SaysWeight) && KeptByLibs(SaysWeight) && KeptByKeys(SaysWeight)
  {
    forall hits: Hits, h | AllBefore(hits.All(), {h}) ensures h !in hits.All() {}
    forall hits: Hits, more | AllBefore(hits.All(), more) ensures hits.keys !! more {}
  }

  lemma ThereKept()
    ensures KeptByImports(SaysThere) && KeptByLibs(SaysThere) && KeptByKeys(SaysThere)
  {
  }

  lemma SymbolsKept()
    ensures KeptByImports(SaysSymbols) && KeptByLibs(SaysSymbols) && KeptByKeys(SaysSymbols)
  {
    forall e, hits, h | SaysSymbols(e, hits) && NextImport(hits, h)
      ensures SaysSymbols(Some(HitSymbol(PayloadOr(e), h.path, h.name)), PlusImport(hits, h))
    {
      SeenMore(PayloadOr(e).symbols, hits.imports, NameOf, true, {h}, h.name);
    }
  }

  lemma NeededKept()
    ensures KeptByImports(SaysNeeded) && KeptByLibs(SaysNeeded) && KeptByKeys(SaysNeeded)
  {
    forall e, hits, h | SaysNeeded(e, hits) && NextLib(hits, h)
      ensures SaysNeeded(Some(HitLib(PayloadOr(e), h.path, h.name)), PlusLib(hits, h))
    {
      SeenMore(PayloadOr(e).needed, hits.Needs(), NameOf, true, {h}, h.name);
      assert PlusLib(hits, h).Needs() == hits.Needs() + {h};
    }
    forall e, hits, more, rel, lib | SaysNeeded(e, hits) && NextKeys(hits, more, rel, lib)
      ensures SaysNeeded(Some(HitKeysOf(PayloadOr(e), rel, lib, |more|)), PlusKeys(hits, more))
    {
      SeenMore(PayloadOr(e).needed, hits.Needs(), NameOf, true, more, lib);
      assert PlusKeys(hits, more).Needs() == hits.Needs() + more;
    }
  }

  lemma AllOfPlus(hits: Hits, h: Hit, more: set<Hit>)
    ensures PlusImport(hits, h).All() == hits.All() + {h}
    ensures PlusLib(hits, h).All() == hits.All() + {h}
    ensures PlusKeys(hits, more).All() == hits.All() + more
  {
  }

  lemma FilesKept()
    ensures KeptByImports(SaysFiles) && KeptByLibs(SaysFiles) && KeptByKeys(SaysFiles)
  {
    forall e, hits, h | SaysFiles(e, hits) && AllBefore(hits.All(), {h})
      ensures SaysFiles(Some(HitSymbol(PayloadOr(e), h.path, h.name)), PlusImport(hits, h))
           && SaysFiles(Some(HitLib(PayloadOr(e), h.path, h.name)), PlusLib(hits, h))
    {
      SeenMore(PayloadOr(e).files, hits.All(), PathOf, true, {h}, h.path);
      AllOfPlus(hits, h, {});
    }
    forall e, hits, more, rel, lib | SaysFiles(e, hits) && NextKeys(hits, more, rel, lib)
      ensures SaysFiles(Some(HitKeysOf(PayloadOr(e), rel, lib, |more|)), PlusKeys(hits, more))
    {
      SeenMore(PayloadOr(e).files, hits.All(), PathOf, true, more, rel);
      var h :| h in more;
      AllOfPlus(hits, h, more);
    }
  }

  lemma KindsKept()
    ensures KeptByImports(SaysKinds) && KeptByLibs(SaysKinds) && KeptByKeys(SaysKinds)
  {
    forall e, hits, h, more: set<Hit> | SaysKinds(e, hits) && AllBefore(hits.All(), more) && h in more
                              && forall g | g in more :: g.kind == h.kind
      ensures FirstSeen(WithKind(PayloadOr(e).kinds, h.kind), hits.All() + more, KindOf, false)
    {
      SeenMore(PayloadOr(e).kinds, hits.All(), KindOf, false, more, h.kind);
    }
    forall e, hits, h | SaysKinds(e, hits) && NextImport(hits, h)
      ensures SaysKinds(Some(HitSymbol(PayloadOr(e), h.path, h.name)), PlusImport(hits, h))
    {
      AllOfPlus(hits, h, {h});
    }
    forall e, hits, h | SaysKinds(e, hits) && NextLib(hits, h)
      ensures SaysKinds(Some(HitLib(PayloadOr(e), h.path, h.name)), PlusLib(hits, h))
    {
      AllOfPlus(hits, h, {h});
    }
    forall e, hits, more, rel, lib | SaysKinds(e, hits) && NextKeys(hits, more, rel, lib)
      ensures SaysKinds(Some(HitKeysOf(PayloadOr(e), rel, lib, |more|)), PlusKeys(hits, more))
    {
      var h :| h in more;
      AllOfPlus(hits, h, more);
    }
  }

  /** The edge that the files of a module have to dst says of their hits on dst what it should. */
  lemma EdgeSays(inp: Inputs, files: seq<string>, dst: Name)
    ensures Says(AfterFiles(None, inp, files, dst), HitsOf(inp, files, dst))
  {
    WeightKept();
    AfterFilesKeeps(SaysWeight, inp, files, dst);
    ThereKept();
    AfterFilesKeeps(SaysThere, inp, files, dst);
    SymbolsKept();
    AfterFilesKeeps(SaysSymbols, inp, files, dst);
    NeededKept();
    AfterFilesKeeps(SaysNeeded, inp, files, dst);
    FilesKept();
    AfterFilesKeeps(SaysFiles, inp, files, dst);
    KindsKept();
    AfterFilesKeeps(SaysKinds, inp, files, dst);
  }

  ghost predicate SameUpTo<T(!new)>(xs: seq<T>, ys: seq<T>, n: nat) {
    n <= |xs| && n <= |ys| && forall a | 0 <= a < n :: xs[a] == ys[a]
  }

  /** Two values cannot each have a hit before all hits of the other. */
  lemma SameNext<T(!new)>(xs: seq<T>, ys: seq<T>, n: nat, hits: set<Hit>, of: Hit -> T)
    requires n < |xs| && n < |ys| && SameUpTo(xs, ys, n)
    requires HasFirst(xs, n, hits, of) && HasFirst(ys, n, hits, of)
    requires forall a | 0 <= a < n :: xs[a] != xs[n] && ys[a] != ys[n]
    ensures xs[n] == ys[n]
  {
    var p :| First(p, xs, n, hits, of);
    var q :| First(q, ys, n, hits, of);
    if xs[n] != ys[n] {
      assert NotYet(of(q), xs, n) && NotYet(of(p), ys, n);
    }
  }

  lemma {:induction false} SamePrefix<T(!new)>(xs: seq<T>, ys: seq<T>, hits: set<Hit>, of: Hit -> T, capped: bool,
                                               n: nat)
    requires FirstSeen(xs, hits, of, capped) && FirstSeen(ys, hits, of, capped) && n <= |xs| && n <= |ys|
    ensures SameUpTo(xs, ys, n)
  {
    if n > 0 {
      SamePrefix(xs, ys, hits, of, capped, n - 1);
      SameNext(xs, ys, n - 1, hits, of);
    }
  }

  lemma NotLonger<T(!new)>(xs: seq<T>, ys: seq<T>, hits: set<Hit>, of: Hit -> T, capped: bool)
    requires FirstSeen(xs, hits, of, capped) && FirstSeen(ys, hits, of, capped)
    requires |xs| < |ys| ==> SameUpTo(xs, ys, |xs|)
    ensures |xs| >= |ys|
  {
    assert |xs| < |ys| ==> HasFirst(ys, |xs|, hits, of);
  }

  lemma SeenOnce<T(!new)>(xs: seq<T>, ys: seq<T>, hits: set<Hit>, of: Hit -> T, capped: bool)
    requires FirstSeen(xs, hits, of, capped) && FirstSeen(ys, hits, of, capped)
    ensures xs == ys
  {
    SamePrefix(xs, ys, hits, of, capped, if |xs| < |ys| then |xs| else |ys|);
    NotLonger(xs, ys, hits, of, capped);
    NotLonger(ys, xs, hits, of, capped);
  }

  lemma {:induction false} ElemsCount(xs: seq<string>)
    requires Unique(xs)
    ensures |Elems(xs)| == |xs|
  {
    if xs != [] {
      ElemsCount(Init(xs));
      InitLast(xs);
      ElemsConcat(Init(xs), [Last(xs)]);
      assert Elems([Last(xs)]) == {Last(xs)} && Last(xs) !in Elems(Init(xs));
    }
  }

  /** With at most 30 values, a capped list has them all. */
  lemma ShortListsAreWhole(xs: seq<string>, hits: set<Hit>, of: Hit -> string)
    requires FirstSeen(xs, hits, of, true)
    ensures var values := set h | h in hits :: of(h);
            && Elems(xs) <= values && |Elems(xs)| == |xs|
            && (|values| <= 30 ==> Elems(xs) == values)
  {
    var values := set h | h in hits :: of(h);
    ElemsCount(xs);
    forall x | x in Elems(xs) ensures x in values {
      var a :| 0 <= a < |xs| && xs[a] == x;
      assert HasFirst(xs, a, hits, of);
    }
    if |values| <= 30 && |xs| == 30 {
      SubsetSize(Elems(xs), values);
      SameSize(Elems(xs), values);
    }
  }

  lemma SameSize<T>(a: set<T>, b: set<T>)
    requires a <= b && |a| == |b|
    ensures a == b
  {
    assert b == a + (b - a);
  }

  /** The hits determine all that an edge says. */
  lemma DescribedOnce(p: Payload, q: Payload, hits: Hits)
    requires Describes(p, hits) && Describes(q, hits)
    ensures p == q
  {
    SeenOnce(p.symbols, q.symbols, hits.imports, NameOf, true);
    SeenOnce(p.needed, q.needed, hits.Needs(), NameOf, true);
    SeenOnce(p.files, q.files, hits.All(), PathOf, true);
    SeenOnce(p.kinds, q.kinds, hits.All(), KindOf, false);
  }

  // ---------- degrees ----------

  datatype Edge = Edge(source: Name, target: Name, payload: Payload)

  ghost function EdgesFrom(edges: seq<Edge>, m: Name): set<nat> {
    set i: nat | i < |edges| && edges[i].source == m
  }

  ghost function EdgesTo(edges: seq<Edge>, m: Name): set<nat> {
    set i: nat | i < |edges| && edges[i].target == m
  }

  /** The weight out of m before each edge and after the last. */
  ghost predicate RunningWeight(edges: seq<Edge>, m: Name, sums: seq<int>) {
    && |sums| == |edges| + 1 && sums[0] == 0
    && forall i, j {:trigger edges[i], sums[j]} | 0 <= i < |edges| && j == i + 1 ::
         sums[j] == sums[i] + (if edges[i].source == m then edges[i].payload.weight else 0)
  }

  ghost predicate WeighsOut(edges: seq<Edge>, m: Name, total: nat) {
    exists sums :: RunningWeight(edges, m, sums) && Last(sums) == total
  }

  ghost function TotalWeight(edges: seq<Edge>): nat {
    if edges == [] then 0 else TotalWeight(Init(edges)) + Last(edges).payload.weight
  }

  ghost function Sum(names: seq<Name>, of: map<Name, nat>): nat
    requires forall m | m in names :: m in of
  {
    if names == [] then 0 else Sum(Init(names), of) + of[Last(names)]
  }

  ghost predicate Unique(names: seq<Name>) {
    forall i, j | 0 <= i < j < |names| :: names[i] != names[j]
  }

  lemma {:induction false} SumOfIncrement(names: seq<Name>, of: map<Name, nat>, m: Name, n: nat)
    requires (forall x | x in names :: x in of) && m in of && Unique(names)
    ensures Sum(names, of[m := of[m] + n]) == Sum(names, of) + if m in names then n else 0
  {
    if names != [] {
      SumOfIncrement(Init(names), of, m, n);
      InitLast(names);
      assert m in names <==> m in Init(names) || m == Last(names);
    }
  }

  lemma SumOfZeros(names: seq<Name>, of: map<Name, nat>)
    requires forall m | m in names :: m in of && of[m] == 0
    ensures Sum(names, of) == 0
  {
  }

  /** The three dictionaries after the edges in `done`. */
  ghost predicate OutTally(names: seq<Name>, done: seq<Edge>, of: map<Name, nat>) {
    (forall m | m in names :: m in of && of[m] == |EdgesFrom(done, m)|) && Sum(names, of) == |done|
  }

  ghost predicate InTally(names: seq<Name>, done: seq<Edge>, of: map<Name, nat>) {
    (forall m | m in names :: m in of && of[m] == |EdgesTo(done, m)|) && Sum(names, of) == |done|
  }

  ghost predicate WeightTally(names: seq<Name>, done: seq<Edge>, of: map<Name, nat>) {
    (forall m | m in names :: m in of && WeighsOut(done, m, of[m])) && Sum(names, of) == TotalWeight(done)
  }

  lemma OneEdgeFrom(done: seq<Edge>, e: Edge, m: Name)
    ensures |EdgesFrom(done + [e], m)| == |EdgesFrom(done, m)| + if e.source == m then 1 else 0
  {
    OneIndexMore(EdgesFrom(done, m), EdgesFrom(done + [e], m), |done|, e.source == m);
  }

  lemma OneEdgeTo(done: seq<Edge>, e: Edge, m: Name)
    ensures |EdgesTo(done + [e], m)| == |EdgesTo(done, m)| + if e.target == m then 1 else 0
  {
    OneIndexMore(EdgesTo(done, m), EdgesTo(done + [e], m), |done|, e.target == m);
  }

  lemma OneWeightMore(done: seq<Edge>, e: Edge, m: Name, total: nat)
    requires WeighsOut(done, m, total)
    ensures WeighsOut(done + [e], m, total + if e.source == m then e.payload.weight else 0)
  {
    var sums :| RunningWeight(done, m, sums) && Last(sums) == total;
    assert RunningWeight(done + [e], m, sums + [total + if e.source == m then e.payload.weight else 0]);
  }

  lemma OutStep(names: seq<Name>, done: seq<Edge>, e: Edge, of: map<Name, nat>)
    requires Unique(names) && e.source in names && OutTally(names, done, of)
    ensures OutTally(names, done + [e], of[e.source := of[e.source] + 1])
  {
    SumOfIncrement(names, of, e.source, 1);
    forall m | m in names ensures of[e.source := of[e.source] + 1][m] == |EdgesFrom(done + [e], m)| {
      OneEdgeFrom(done, e, m);
    }
  }

  lemma InStep(names: seq<Name>, done: seq<Edge>, e: Edge, of: map<Name, nat>)
    requires Unique(names) && e.target in names && InTally(names, done, of)
    ensures InTally(names, done + [e], of[e.target := of[e.target] + 1])
  {
    SumOfIncrement(names, of, e.target, 1);
    forall m | m in names ensures of[e.target := of[e.target] + 1][m] == |EdgesTo(done + [e], m)| {
      OneEdgeTo(done, e, m);
    }
  }

  lemma WeightStep(names: seq<Name>, done: seq<Edge>, e: Edge, of: map<Name, nat>)
    requires Unique(names) && e.source in names && WeightTally(names, done, of)
    ensures WeightTally(names, done + [e], of[e.source := of[e.source] + e.payload.weight])
  {
    SumOfIncrement(names, of, e.source, e.payload.weight);
    assert Init(done + [e]) == done;
    forall m | m in names ensures WeighsOut(done + [e], m, of[e.source := of[e.source] + e.payload.weight][m]) {
      OneWeightMore(done, e, m, of[m]);
    }
  }

  ghost predicate Tallied(names: seq<Name>, done: seq<Edge>, outDeg: map<Name, nat>, inDeg: map<Name, nat>,
                          weight: map<Name, nat>) {
    OutTally(names, done, outDeg) && InTally(names, done, inDeg) && WeightTally(names, done, weight)
  }

  lemma NothingTallied(names: seq<Name>, of: map<Name, nat>)
    requires forall m | m in names :: m in of && of[m] == 0
    ensures Tallied(names, [], of, of, of)
  {
    SumOfZeros(names, of);
    forall m ensures EdgesFrom([], m) == {} && EdgesTo([], m) == {} && WeighsOut([], m, 0) {
      assert RunningWeight([], m, [0]);
    }
  }

  lemma OneEdgeTallied(names: seq<Name>, done: seq<Edge>, e: Edge, outDeg: map<Name, nat>, inDeg: map<Name, nat>,
                       weight: map<Name, nat>)
    requires Unique(names) && e.source in names && e.target in names && Tallied(names, done, outDeg, inDeg, weight)
    ensures Tallied(names, done + [e], outDeg[e.source := outDeg[e.source] + 1],
                    inDeg[e.target := inDeg[e.target] + 1],
                    weight[e.source := weight[e.source] + e.payload.weight])
  {
    OutStep(names, done, e, outDeg);
    InStep(names, done, e, inDeg);
    WeightStep(names, done, e, weight);
  }

  /** The degree loop: per module the edges out, the edges in and the weight out; over all modules the
      out-degrees and the in-degrees each sum to the number of edges, the weights to the edges' weights. */
  method Degrees(names: seq<Name>, edges: seq<Edge>) returns (outDeg: map<Name, nat>, inDeg: map<Name, nat>,
                 weight: map<Name, nat>)
    requires Unique(names) && forall e | e in edges :: e.source in names && e.target in names
    ensures Tallied(names, edges, outDeg, inDeg, weight)
  {
    outDeg := map m | m in names :: 0;
    inDeg := map m | m in names :: 0;
    weight := map m | m in names :: 0;
    NothingTallied(names, outDeg);
    assert edges[..0] == [];
    for i := 0 to |edges|
      invariant Tallied(names, edges[..i], outDeg, inDeg, weight)
    {
      var e := edges[i];
      assert e in edges;
      PrefixSnoc(edges, i);
      OneEdgeTallied(names, edges[..i], e, outDeg, inDeg, weight);
      outDeg := outDeg[e.source := outDeg[e.source] + 1];
      inDeg := inDeg[e.target := inDeg[e.target] + 1];
      weight := weight[e.source := weight[e.source] + e.payload.weight];
    }
    assert edges[..|edges|] == edges;
  }

  // ---------- the whole graph ----------

  predicate EdgeLe(a: Edge, b: Edge) {
    if a.source == b.source then LexLe(a.target, b.target) else LexLe(a.source, b.source)
  }

  predicate SamePair(a: Edge, b: Edge) {
    a.source == b.source && a.target == b.target
  }

  /** In (source, target) order, no pair twice. */
  ghost predicate InOrder(edges: seq<Edge>) {
    forall i, j | 0 <= i < j < |edges| :: EdgeLe(edges[i], edges[j]) && !SamePair(edges[i], edges[j])
  }

  lemma EdgeLeTotal(a: Edge, b: Edge)
    ensures EdgeLe(a, b) || EdgeLe(b, a)
  {
    LexTotal(a.source, b.source);
    LexTotal(a.target, b.target);
  }

  lemma EdgeLeTransitive(a: Edge, b: Edge, c: Edge)
    requires EdgeLe(a, b) && EdgeLe(b, c)
    ensures EdgeLe(a, c)
  {
    if a.source == b.source && b.source == c.source {
      LexTransitive(a.target, b.target, c.target);
    } else if a.source != b.source && b.source != c.source {
      LexTransitive(a.source, b.source, c.source);
      if a.source == c.source { LexAntisymmetric(a.source, b.source); }
    }
  }

  lemma EdgeLeFirst(edges: seq<Edge>, e: Edge)
    requires InOrder(edges) && edges != []
    ensures if EdgeLe(e, edges[0]) then forall x | x in edges :: EdgeLe(e, x) else EdgeLe(edges[0], e)
    ensures forall x | x in edges[1..] :: EdgeLe(edges[0], x)
  {
    EdgeLeTotal(edges[0], e);
    if EdgeLe(e, edges[0]) {
      forall x | x in edges ensures EdgeLe(e, x) {
        if x != edges[0] { EdgeLeTransitive(e, edges[0], x); }
      }
    }
  }

  lemma InOrderCons(e: Edge, edges: seq<Edge>)
    requires InOrder(edges) && forall x | x in edges :: EdgeLe(e, x) && !SamePair(e, x)
    ensures InOrder([e] + edges)
  {
  }

  /** The first edge in front of the others with e among them. */
  lemma InsertBehind(edges: seq<Edge>, e: Edge, rest: seq<Edge>)
    requires edges != [] && InOrder(edges) && !EdgeLe(e, edges[0]) && !SamePair(e, edges[0])
    requires InOrder(rest) && Elems(rest) == Elems(edges[1..]) + {e}
    ensures InOrder([edges[0]] + rest) && Elems([edges[0]] + rest) == Elems(edges) + {e}
  {
    EdgeLeFirst(edges, e);
    assert edges == [edges[0]] + edges[1..];
    ElemsConcat([edges[0]], edges[1..]);
    ElemsConcat([edges[0]], rest);
    forall x | x in rest ensures EdgeLe(edges[0], x) && !SamePair(edges[0], x) {
      assert x in Elems(rest);
    }
    InOrderCons(edges[0], rest);
  }

  function InsertEdge(edges: seq<Edge>, e: Edge): (r: seq<Edge>)
    requires InOrder(edges) && forall x | x in edges :: !SamePair(e, x)
    ensures InOrder(r) && |r| == |edges| + 1 && Elems(r) == Elems(edges) + {e}
  {
    ElemsConcat([e], edges);
    if edges == [] then [e] + edges
    else if EdgeLe(e, edges[0]) then
      EdgeLeFirst(edges, e);
      InOrderCons(e, edges);
      [e] + edges
    else
      var rest := InsertEdge(edges[1..], e);
      InsertBehind(edges, e, rest);
      [edges[0]] + rest
  }

  ghost function EdgeSet(edges: Edges): set<Edge> {
    set k | k in edges :: Edge(k.0, k.1, edges[k])
  }

  /** sorted(edge_payload.values(), key=(source, target)), from the dictionary in any order. */
  method SortEdges(edges: Edges) returns (list: seq<Edge>)
    ensures InOrder(list) && |list| == |edges| && Elems(list) == EdgeSet(edges)
  {
    list := [];
    var todo := edges.Keys;
    while todo != {}
      invariant todo <= edges.Keys
      invariant InOrder(list) && |list| + |todo| == |edges.Keys|
      invariant Elems(list) == set k | k in edges.Keys - todo :: Edge(k.0, k.1, edges[k])
      decreases |todo|
    {
      var k :| k in todo;
      assert forall x | x in list :: x in Elems(list);
      list := InsertEdge(list, Edge(k.0, k.1, edges[k]));
      todo := todo - {k};
    }
    assert edges.Keys - todo == edges.Keys;
  }

  ghost function NamesOf(modules: seq<Module>): set<Name> {
    set i | 0 <= i < |modules| :: modules[i].name
  }

  /** Only modules are targets of edges. */
  lemma TargetIsModule(inp: Inputs, files: seq<string>, dst: Name)
    requires HitsOf(inp, files, dst).All() != {}
    ensures dst in NamesOf(inp.modules)
  {
  }

  /** e is an edge of a module of the inputs to another that its files hit, and says what it should. */
  ghost predicate IsEdge(inp: Inputs, e: Edge) {
    e.source != e.target
    && exists i :: 0 <= i < |inp.modules| && inp.modules[i].name == e.source && EdgeFrom(inp, inp.modules[i], e)
  }

  ghost predicate EdgeFrom(inp: Inputs, m: Module, e: Edge) {
    var hits := HitsOf(inp, m.files, e.target);
    hits.All() != {} && Describes(e.payload, hits)
  }

  /** The edges of the inputs, all of them and nothing else, in (source, target) order. */
  ghost predicate IsGraph(inp: Inputs, edges: seq<Edge>) {
    InOrder(edges) && forall e :: e in edges <==> IsEdge(inp, e)
  }

  lemma SaidOnce(e: Option<Payload>, p: Payload, hits: Hits)
    requires Says(e, hits)
    ensures e == Some(p) <==> hits.All() != {} && Describes(p, hits)
  {
    if hits.All() != {} && Describes(p, hits) { DescribedOnce(e.value, p, hits); }
  }

  lemma EdgeOfIs(inp: Inputs, m: Module, e: Edge)
    requires m.name == e.source
    ensures EdgeOf(inp, m, e.target) == Some(e.payload) <==> e.source != e.target && EdgeFrom(inp, m, e)
  {
    EdgeSays(inp, m.files, e.target);
    SaidOnce(AfterFiles(None, inp, m.files, e.target), e.payload, HitsOf(inp, m.files, e.target));
  }

  lemma {:induction false} OrderedUnique(a: seq<Edge>, b: seq<Edge>)
    requires InOrder(a) && InOrder(b) && Elems(a) == Elems(b)
    ensures a == b
    decreases |a|
  {
    assert a != [] ==> a[0] in Elems(a);
    assert b != [] ==> b[0] in Elems(b);
    if a != [] {
      SameFirst(a, b);
      TailElems(a);
      TailElems(b);
      OrderedUnique(a[1..], b[1..]);
      assert a == [a[0]] + a[1..] && b == [b[0]] + b[1..];
    }
  }

  lemma TailElems(a: seq<Edge>)
    requires InOrder(a) && a != []
    ensures Elems(a[1..]) == Elems(a) - {a[0]}
  {
    assert a == [a[0]] + a[1..];
    ElemsConcat([a[0]], a[1..]);
  }

  lemma SameFirst(a: seq<Edge>, b: seq<Edge>)
    requires InOrder(a) && InOrder(b) && a != [] && b != [] && a[0] in b && b[0] in a
    ensures a[0] == b[0]
  {
    if a[0] != b[0] {
      EdgeLeAntisymmetric(a[0], b[0]);
    }
  }

  lemma EdgeLeAntisymmetric(a: Edge, b: Edge)
    requires EdgeLe(a, b) && EdgeLe(b, a)
    ensures SamePair(a, b)
  {
    if a.source == b.source {
      LexAntisymmetric(a.target, b.target);
    } else {
      LexAntisymmetric(a.source, b.source);
    }
  }

  /** The inputs determine the graph, symbols, files and kinds of every edge included: no order in which sets
      are met can change it. */
  lemma GraphUnique(inp: Inputs, a: seq<Edge>, b: seq<Edge>)
    requires IsGraph(inp, a) && IsGraph(inp, b)
    ensures a == b
  {
    OrderedUnique(a, b);
  }

  /** The whole graph, and the degrees that belong to its edges. */
  method BuildModuleDependencyGraph(inp: Inputs)
    returns (edges: seq<Edge>, outDeg: map<Name, nat>, inDeg: map<Name, nat>, weight: map<Name, nat>,
             ghost names: seq<Name>)
    requires DistinctNames(inp.modules)
    ensures IsGraph(inp, edges)
    ensures |names| == |inp.modules| && Unique(names)
    ensures forall i | 0 <= i < |names| :: names[i] == inp.modules[i].name
    ensures Tallied(names, edges, outDeg, inDeg, weight)
  {
    var table := BuildEdges(inp);
    edges := SortEdges(table);
    var moduleNames := seq(|inp.modules|, i requires 0 <= i < |inp.modules| => inp.modules[i].name);
    names := moduleNames;
    TableIsGraph(inp, table, edges, names);
    outDeg, inDeg, weight := Degrees(moduleNames, edges);
  }

  lemma EdgeJoinsModules(inp: Inputs, names: seq<Name>, e: Edge)
    requires IsEdge(inp, e)
    requires |names| == |inp.modules| && forall i | 0 <= i < |names| :: names[i] == inp.modules[i].name
    ensures e.source in names && e.target in names
  {
    var i :| 0 <= i < |inp.modules| && inp.modules[i].name == e.source && EdgeFrom(inp, inp.modules[i], e);
    assert names[i] == e.source;
    TargetIsModule(inp, inp.modules[i].files, e.target);
    var j :| 0 <= j < |inp.modules| && inp.modules[j].name == e.target;
    assert names[j] == e.target;
  }

  lemma TableHasEdges(inp: Inputs, table: Edges, e: Edge)
    requires DistinctNames(inp.modules)
    requires forall i, d | 0 <= i < |inp.modules| ::
               Lookup(table, inp.modules[i].name, d) == EdgeOf(inp, inp.modules[i], d)
    requires forall s, d | (s, d) in table :: exists i :: 0 <= i < |inp.modules| && inp.modules[i].name == s
    ensures e in EdgeSet(table) <==> IsEdge(inp, e)
  {
    if e in EdgeSet(table) {
      assert (e.source, e.target) in table;
      var i :| 0 <= i < |inp.modules| && inp.modules[i].name == e.source;
      assert Lookup(table, inp.modules[i].name, e.target) == Some(e.payload);
      EdgeOfIs(inp, inp.modules[i], e);
    }
    if i :| e.source != e.target && 0 <= i < |inp.modules| && inp.modules[i].name == e.source
            && EdgeFrom(inp, inp.modules[i], e) {
      EdgeOfIs(inp, inp.modules[i], e);
      assert Lookup(table, inp.modules[i].name, e.target) == Some(e.payload);
      assert (e.source, e.target) in table;
    }
  }

  lemma TableIsGraph(inp: Inputs, table: Edges, edges: seq<Edge>, names: seq<Name>)
    requires DistinctNames(inp.modules)
    requires forall i, d | 0 <= i < |inp.modules| ::
               Lookup(table, inp.modules[i].name, d) == EdgeOf(inp, inp.modules[i], d)
    requires forall s, d | (s, d) in table :: exists i :: 0 <= i < |inp.modules| && inp.modules[i].name == s
    requires InOrder(edges) && Elems(edges) == EdgeSet(table)
    requires |names| == |inp.modules| && forall i | 0 <= i < |names| :: names[i] == inp.modules[i].name
    ensures IsGraph(inp, edges) && forall e | e in edges :: e.source in names && e.target in names
  {
    forall e ensures e in edges <==> IsEdge(inp, e) {
      TableHasEdges(inp, table, e);
      assert e in edges <==> e in Elems(edges);
    }
    forall e | e in edges ensures e.source in names && e.target in names {
      EdgeJoinsModules(inp, names, e);
    }
  }
}

/**
  The file system client that keeps directory listings in a remote cache. The server is
  abstract: it answers with any code, changes nothing when it answers a code the client
  returns early on, and otherwise may or may not have done what was asked.
  */
module DirectoryCache {
  import opened Basics
  import opened Listing

  const ENOENT: int := 2
  const EEXIST: int := 17
  const ENAMETOOLONG: int := 36

  type Cache = map<string, string>

  /** The listing of every directory that exists. */
  type Server = map<string, seq<string>>

  datatype State = State(server: Server, cache: Cache)

  datatype Step =
    | CreateFile(dir: string, name: string, reply: int, after: Server)
    | MakeDirectory(dir: string, name: string, reply: int, after: Server)
    | RemoveFile(dir: string, name: string, reply: int, after: Server)
    | RemoveDirectory(dir: string, name: string, reply: int, after: Server)
    | ReadDirectory(path: string, reply: int)
    | PutAttributes(path: string, value: string)
    | ForgetAttributes(path: string)
    | Evict(gone: set<string>)

  // ---------- paths and keys ----------

  /** The path of an entry of a directory. */
  function Join(dir: string, name: string): string {
    if dir == "/" then "/" + name else dir + "/" + name
  }

  predicate ValidName(name: string) {
    name != "" && '/' !in name
  }

  /** strrchr: where the last slash is. */
  function LastSlash(path: string): (p: nat)
    requires '/' in path
    ensures p < |path| && path[p] == '/'
    ensures forall k :: p < k < |path| ==> path[k] != '/'
  {
    if path[|path| - 1] == '/' then |path| - 1 else
    assert '/' in path[..|path| - 1];
    LastSlash(path[..|path| - 1])
  }

  function Previous(path: string): string
    requires '/' in path
  {
    var size := LastSlash(path);
    if size != 0 then path[..size] else "/"
  }

  function DirKey(path: string): string { "dir-" + path }

  function AttrKey(path: string): string { "attr-" + path }

  lemma KeysApart(p: string, q: string)
    ensures DirKey(p) == DirKey(q) <==> p == q
    ensures DirKey(p) != AttrKey(q)
  {
    assert DirKey(p)[4..] == p && DirKey(q)[4..] == q;
    assert DirKey(p)[0] == 'd' && AttrKey(q)[0] == 'a';
  }

  /** The path whose listing the client drops is the directory that holds the entry. */
  lemma PreviousOfEntry(dir: string, name: string)
    requires dir != "" && ValidName(name)
    ensures '/' in Join(dir, name) && Previous(Join(dir, name)) == dir
  {
    var path := Join(dir, name);
    var at := |path| - |name| - 1;
    assert path[at] == '/';
    forall k | at < k < |path| ensures path[k] != '/' {
      assert path[k] == name[k - at - 1];
    }
    assert dir != "/" ==> path[..at] == dir;
  }

  // ---------- what the client does to the cache ----------

  predicate CreateFails(reply: int) { reply == -EEXIST || reply == -ENAMETOOLONG }

  predicate AccessFails(reply: int) { reply == -ENOENT || reply == -ENAMETOOLONG }

  function Forget(cache: Cache, path: string): Cache
    requires '/' in path
  {
    cache - {DirKey(Previous(path))}
  }

  function CacheAfterRead(cache: Cache, path: string, reply: int, payload: string): Cache {
    if DirKey(path) in cache || AccessFails(reply) then cache else cache[DirKey(path) := payload]
  }

  /** The names handed to the kernel, when the read succeeds. */
  function Answer(cache: Cache, path: string, reply: int, payload: string): Option<seq<string>> {
    if DirKey(path) in cache then Some(Split(cache[DirKey(path)] + [NUL]))
    else if AccessFails(reply) then None
    else Some(Split(payload))
  }

  /** What the server sends for a directory it is asked to list. */
  function Sent(server: Server, path: string): string {
    if path in server && server[path] != [] then Payload(server[path]) else ""
  }

  // ---------- runs against the abstract server ----------

  /** No listing changes but that of one directory. */
  predicate SameBut(before: Server, after: Server, dir: string) {
    forall d :: d in before && d in after && d != dir ==> before[d] == after[d]
  }

  predicate AllListable(server: Server) {
    forall d :: d in server ==> Listable(server[d])
  }

  /** `bare` is the listing of a directory nothing was put in. */
  predicate Enabled(bare: seq<string>, s: State, step: Step) {
    match step
    case CreateFile(dir, name, reply, after) =>
      && dir != "" && ValidName(name) && AllListable(after)
      && (CreateFails(reply) ==> after == s.server)
      && after.Keys == s.server.Keys && SameBut(s.server, after, dir)
    case MakeDirectory(dir, name, reply, after) =>
      && dir != "" && ValidName(name) && AllListable(after)
      && (CreateFails(reply) ==> after == s.server)
      && (after == s.server || Made(bare, s.server, after, dir, Join(dir, name)))
    case RemoveFile(dir, name, reply, after) =>
      && dir != "" && ValidName(name) && AllListable(after)
      && (AccessFails(reply) ==> after == s.server)
      && after.Keys == s.server.Keys && SameBut(s.server, after, dir)
    case RemoveDirectory(dir, name, reply, after) =>
      && dir != "" && ValidName(name) && AllListable(after)
      && (AccessFails(reply) ==> after == s.server)
      && (after == s.server || Removed(bare, s.server, after, dir, Join(dir, name)))
    case ReadDirectory(path, reply) => path in s.server || AccessFails(reply)
    case PutAttributes(path, value) => true
    case ForgetAttributes(path) => true
    case Evict(gone) => true
  }

  predicate Made(bare: seq<string>, before: Server, after: Server, dir: string, path: string) {
    && path !in before && after.Keys == before.Keys + {path} && after[path] == bare
    && SameBut(before, after, dir)
  }

  /** rmdir succeeds only on an empty directory. */
  predicate Removed(bare: seq<string>, before: Server, after: Server, dir: string, path: string) {
    && path in before && before[path] == bare && after.Keys == before.Keys - {path}
    && SameBut(before, after, dir)
  }

  function Next(s: State, step: Step): State
    requires step.CreateFile? || step.MakeDirectory? || step.RemoveFile? || step.RemoveDirectory?
      ==> step.dir != "" && ValidName(step.name)
  {
    match step
    case CreateFile(dir, name, reply, after) => AfterChange(s, dir, name, CreateFails(reply), after)
    case MakeDirectory(dir, name, reply, after) => AfterChange(s, dir, name, CreateFails(reply), after)
    case RemoveFile(dir, name, reply, after) => AfterChange(s, dir, name, AccessFails(reply), after)
    case RemoveDirectory(dir, name, reply, after) => AfterChange(s, dir, name, AccessFails(reply), after)
    case ReadDirectory(path, reply) => s.(cache := CacheAfterRead(s.cache, path, reply, Sent(s.server, path)))
    case PutAttributes(path, value) => s.(cache := s.cache[AttrKey(path) := value])
    case ForgetAttributes(path) => s.(cache := s.cache - {AttrKey(path)})
    case Evict(gone) => s.(cache := s.cache - gone)
  }

  function AfterChange(s: State, dir: string, name: string, failed: bool, after: Server): State
    requires dir != "" && ValidName(name)
  {
    PreviousOfEntry(dir, name);
    State(after, if failed then s.cache else Forget(s.cache, Join(dir, name)))
  }

  function Expected(bare: seq<string>, server: Server, path: string): seq<string> {
    if path in server then server[path] else bare
  }

  /** A cached listing is the server's; that of a directory that is gone is the empty one. */
  ghost predicate Fresh(bare: seq<string>, s: State) {
    && bare != [] && AllListable(s.server)
    && forall d :: DirKey(d) in s.cache ==>
         Expected(bare, s.server, d) != [] && s.cache[DirKey(d)] == Payload(Expected(bare, s.server, d))
  }

  lemma ChangeFresh(bare: seq<string>, s: State, dir: string, name: string, failed: bool, after: Server)
    requires Fresh(bare, s) && dir != "" && ValidName(name) && AllListable(after)
    requires failed ==> after == s.server
    requires forall d :: d != dir ==> Expected(bare, after, d) == Expected(bare, s.server, d)
    ensures Fresh(bare, AfterChange(s, dir, name, failed, after))
  {
    var t := AfterChange(s, dir, name, failed, after);
    PreviousOfEntry(dir, name);
    forall d | DirKey(d) in t.cache
      ensures Expected(bare, t.server, d) != [] && t.cache[DirKey(d)] == Payload(Expected(bare, t.server, d))
    {
      if d != dir {
        KeysApart(d, dir);
      }
    }
  }

  lemma StepFresh(bare: seq<string>, s: State, step: Step)
    requires Fresh(bare, s) && Enabled(bare, s, step)
    ensures Fresh(bare, Next(s, step))
  {
    match step
    case CreateFile(dir, name, reply, after) => ChangeFresh(bare, s, dir, name, CreateFails(reply), after);
    case MakeDirectory(dir, name, reply, after) => ChangeFresh(bare, s, dir, name, CreateFails(reply), after);
    case RemoveFile(dir, name, reply, after) => ChangeFresh(bare, s, dir, name, AccessFails(reply), after);
    case RemoveDirectory(dir, name, reply, after) => ChangeFresh(bare, s, dir, name, AccessFails(reply), after);
    case ReadDirectory(path, reply) =>
      forall d | DirKey(d) in Next(s, step).cache
        ensures Next(s, step).cache[DirKey(d)] == Payload(Expected(bare, s.server, d))
      { KeysApart(d, path); }
    case PutAttributes(path, value) => forall d { KeysApart(d, path); }
    case ForgetAttributes(path) =>
    case Evict(gone) =>
  }

  // ---------- whole runs ----------

  predicate Run(bare: seq<string>, s: State, steps: seq<Step>)
    decreases |steps|
  {
    steps != [] ==> Enabled(bare, s, steps[0]) && Run(bare, Next(s, steps[0]), steps[1..])
  }

  function End(bare: seq<string>, s: State, steps: seq<Step>): State
    requires Run(bare, s, steps)
    decreases |steps|
  {
    if steps == [] then s else End(bare, Next(s, steps[0]), steps[1..])
  }

  lemma {:induction false} RunFresh(bare: seq<string>, s: State, steps: seq<Step>)
    requires Fresh(bare, s) && Run(bare, s, steps)
    ensures Fresh(bare, End(bare, s, steps))
    decreases |steps|
  {
    if steps != [] {
      StepFresh(bare, s, steps[0]);
      RunFresh(bare, Next(s, steps[0]), steps[1..]);
    }
  }

  /** From an empty cache, every cached listing of a directory that exists is the server's. */
  lemma EveryRunFresh(bare: seq<string>, server: Server, steps: seq<Step>, path: string)
    requires bare != [] && AllListable(server) && Run(bare, State(server, map[]), steps)
    ensures var s := End(bare, State(server, map[]), steps);
      path in s.server && DirKey(path) in s.cache ==>
        s.server[path] != [] && s.cache[DirKey(path)] == Payload(s.server[path])
  {
    RunFresh(bare, State(server, map[]), steps);
  }

  /** One more NUL after a terminated text is not read. */
  lemma {:induction false} TextEndMore(s: string, i: nat)
    requires i <= |s| && TextEnd(s, i) < |s|
    ensures TextEnd(s + [NUL], i) == TextEnd(s, i)
    decreases |s| - i
  {
    if s[i] != NUL { TextEndMore(s, i + 1); }
  }

  lemma SplitMore(names: seq<string>)
    requires names != []
    ensures Split(Payload(names) + [NUL]) == Split(Payload(names))
  {
    var p := Payload(names);
    AlwaysTerminated(names);
    TextEndMore(p, 0);
    PiecesSame(p + [NUL], p, 0, TextEnd(p, 0));
  }

  /**
    After any run, a read of an existing directory that succeeds names exactly what the
    server lists, from the cache or not, if and only if every name is plain.
    */
  lemma EveryReadAnswers(bare: seq<string>, server: Server, steps: seq<Step>, path: string, reply: int)
    requires bare != [] && AllListable(server) && Run(bare, State(server, map[]), steps)
    ensures var s := End(bare, State(server, map[]), steps);
      var a := Answer(s.cache, path, reply, Sent(s.server, path));
      path in s.server && a.Some? ==>
        (a.value == s.server[path] <==> forall w :: w in s.server[path] ==> Plain(w))
  {
    RunFresh(bare, State(server, map[]), steps);
    var s := End(bare, State(server, map[]), steps);
    if path in s.server {
      SplitMore(s.server[path]);
      RoundTrip(s.server[path]);
    }
  }

  /** Reading a directory that is gone succeeds exactly while its old listing is cached, and finds it empty. */
  lemma GoneDirectoryAnswers(bare: seq<string>, s: State, path: string, reply: int)
    requires Fresh(bare, s) && path !in s.server && Enabled(bare, s, ReadDirectory(path, reply))
    ensures var a := Answer(s.cache, path, reply, Sent(s.server, path));
      (a.Some? <==> DirKey(path) in s.cache) && (a.Some? ==> a.value == Split(Payload(bare)))
  {
    SplitMore(bare);
  }

  /** Were a directory removed with entries in it and made again, its old listing would be served. */
  lemma FullRemovalGoesStale(s: State, dir: string, name: string, without: Server, again: Server)
    requires dir != "" && ValidName(name) && Join(dir, name) in s.server && s.server[Join(dir, name)] != []
    requires DirKey(Join(dir, name)) in s.cache && s.cache[DirKey(Join(dir, name))] == Sent(s.server, Join(dir, name))
    ensures var t := Next(Next(s, RemoveDirectory(dir, name, 0, without)), MakeDirectory(dir, name, 0, again));
      t.server == again && DirKey(Join(dir, name)) in t.cache
      && t.cache[DirKey(Join(dir, name))] == Payload(s.server[Join(dir, name)])
  {
    PreviousOfEntry(dir, name);
    KeysApart(Join(dir, name), dir);
  }

  // ---------- the client's code ----------

  /** get_previus_path. */
  method PreviousPath(path: string) returns (splitted: string)
    requires '/' in path
    ensures splitted == Previous(path)
  {
    var size := |path|;
    while size == |path| || path[size] != '/'
      invariant LastSlash(path) <= size <= |path| && forall k :: size < k < |path| ==> path[k] != '/'
      decreases size
    {
      size := size - 1;
    }
    splitted := if size != 0 then path[..size] else "/";
  }

  datatype KeyType = Directory | Attributes

  /** memcached_library_key: the prefix and the path, without a terminator. */
  method LibraryKey(kind: KeyType, path: string) returns (key: array<char>)
    ensures fresh(key)
    ensures key[..] == match kind case Directory => DirKey(path) case Attributes => AttrKey(path)
  {
    var prefix := match kind case Directory => "dir-" case Attributes => "attr-";
    key := new char[|prefix| + |path|];
    forall k | 0 <= k < |prefix| { key[k] := prefix[k]; }
    forall k | 0 <= k < |path| { key[|prefix| + k] := path[k]; }
    assert key[..|prefix|] == prefix && key[|prefix|..] == path;
  }

  /** string_split of a value the cache or the server sent. */
  method Names(value: string) returns (names: seq<string>)
    requires TextEnd(value, 0) < |value|
    ensures names == Split(value)
  {
    var text := new char[|value|](k requires 0 <= k < |value| => value[k]);
    assert text[..] == value;
    names := StringSplit(text);
  }

  class Client {
    var cache: Cache

    method DropListing(path: string)
      requires '/' in path
      modifies this
      ensures cache == Forget(old(cache), path)
    {
      var previous := PreviousPath(path);
      var key := LibraryKey(Directory, previous);
      cache := cache - {key[..]};
    }

    /** crear_archivo and crear_directorio, given the server's reply. */
    method Create(path: string, reply: int) returns (code: int)
      requires '/' in path
      modifies this
      ensures code == if reply == -17 || reply == -36 then reply else 0
      ensures cache == if reply == -17 || reply == -36 then old(cache) else old(cache) - {DirKey(Previous(path))}
      ensures CreateFails(reply) <==> code == reply && reply != 0
    {
      if reply == -EEXIST || reply == -ENAMETOOLONG { return reply; }
      DropListing(path);
      code := 0;
    }

    /** eliminar_archivo and eliminar_directorio, given the server's reply. */
    method Remove(path: string, reply: int) returns (code: int)
      requires '/' in path
      modifies this
      ensures code == if reply == -2 || reply == -36 then reply else 0
      ensures cache == if reply == -2 || reply == -36 then old(cache) else old(cache) - {DirKey(Previous(path))}
      ensures AccessFails(reply) <==> code == reply && reply != 0
    {
      if reply == -ENOENT || reply == -ENAMETOOLONG { return reply; }
      DropListing(path);
      code := 0;
    }

    /** leer_directorio, given what the server would reply and send; the cache gives back a terminated copy. */
    method Read(path: string, reply: int, payload: string) returns (code: int, names: seq<string>)
      requires DirKey(path) !in cache && reply != -2 && reply != -36 ==> TextEnd(payload, 0) < |payload|
      modifies this
      ensures if DirKey(path) in old(cache) then
                code == 0 && cache == old(cache) && names == Split(old(cache)[DirKey(path)] + [NUL])
              else if reply == -2 || reply == -36 then
                code == reply && cache == old(cache) && names == []
              else
                code == 0 && cache == old(cache)[DirKey(path) := payload] && names == Split(payload)
      ensures cache == CacheAfterRead(old(cache), path, reply, payload)
      ensures Answer(old(cache), path, reply, payload) == if code == 0 then Some(names) else None
    {
      var key := "dir-" + path;
      if key in cache {
        assert (cache[key] + [NUL])[|cache[key]|] == NUL;
        names := Names(cache[key] + [NUL]);
        return 0, names;
      }
      if reply == -ENOENT || reply == -ENAMETOOLONG { return reply, []; }
      cache := cache[key := payload];
      names := Names(payload);
      code := 0;
    }

    /** The server's listing of an existing directory reaches the kernel whether or not it was cached. */
    method ReadExisting(ghost bare: seq<string>, ghost server: Server, path: string, payload: string)
      returns (code: int, names: seq<string>)
      requires Fresh(bare, State(server, cache)) && path in server && payload == Payload(server[path])
      modifies this
      ensures Fresh(bare, State(server, cache)) && DirKey(path) in cache
      ensures code == 0 && (names == server[path] <==> forall w :: w in server[path] ==> Plain(w))
    {
      StepFresh(bare, State(server, cache), ReadDirectory(path, 0));
      AlwaysTerminated(server[path]);
      SplitMore(server[path]);
      RoundTrip(server[path]);
      code, names := Read(path, 0, payload);
    }
  }
}

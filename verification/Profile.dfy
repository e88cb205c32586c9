/** The source side of the profile migrator: directory trees, the portable allowlist and the credential denylist. */
module Profile {
  import opened Wrappers
  import opened Text
  import opened Bytes

  /** What reading a regular file will meet. */
  datatype Stability = Steady | Unreadable | ChangesDuringRead | ChangesBeforeCopy

  /**
    A directory entry; `Vanished` cannot be examined any more, `Locked` is a directory that cannot be listed or an entry
    whose kind cannot be found out, and `Special` is a pipe, socket or device.
  */
  datatype Tree =
    | Regular(data: Data, links: nat, stability: Stability)
    | Symlink
    | Special
    | Vanished
    | Locked
    | Directory(listing: Listing)

  /** The entries of one directory in the order of their names. */
  datatype Listing = Nil | Cons(name: string, node: Tree, rest: Listing)

  /** `Unusable` is a root that is a link, lies behind one, is no directory, or cannot be listed itself. */
  datatype Root = Missing(category: string) | Unusable(category: string) | Present(category: string, listing: Listing)

  datatype Found = Found(path: string, node: Tree)

  predicate IsName(s: string) {
    s != "" && s != "." && s != ".." && '/' !in s
  }

  function Names(l: Listing): set<string> {
    match l
    case Nil => {}
    case Cons(name, _, rest) => {name} + Names(rest)
  }

  /** What a filesystem guarantees: real names, each once per directory. */
  predicate WellFormed(l: Listing) {
    match l
    case Nil => true
    case Cons(name, node, rest) =>
      && IsName(name) && name !in Names(rest)
      && (node.Directory? ==> WellFormed(node.listing))
      && WellFormed(rest)
  }

  function Beneath(name: string, found: seq<Found>): (r: seq<Found>)
    ensures |r| == |found|
    ensures forall i :: 0 <= i < |r| ==> r[i] == Found(name + "/" + found[i].path, found[i].node)
  {
    seq(|found|, i requires 0 <= i < |found| => Found(name + "/" + found[i].path, found[i].node))
  }

  /** Every entry that is not a directory that can be listed, depth first. */
  function Walk(l: Listing): seq<Found> {
    match l
    case Nil => []
    case Cons(name, node, rest) =>
      (if node.Directory? then Beneath(name, Walk(node.listing)) else [Found(name, node)]) + Walk(rest)
  }

  /** No path equals another or runs through another as if that were a directory. */
  predicate Unrelated(found: seq<Found>) {
    forall i, j :: 0 <= i < |found| && 0 <= j < |found| && i != j ==>
      !(Split(found[i].path, '/') <= Split(found[j].path, '/'))
  }

  lemma {:induction false} SplitNonempty(s: string)
    ensures '/' !in s ==> Split(s, '/') == [s]
  {
    if s == "" || '/' in s {
    } else {
      assert s[0] in s && s == [s[0]] + s[1..];
      SplitNonempty(s[1..]);
    }
  }

  lemma {:induction false} SplitBeneath(name: string, path: string)
    requires '/' !in name
    ensures Split(name + "/" + path, '/') == [name] + Split(path, '/')
  {
    var whole := name + "/" + path;
    if name == "" {
      assert whole[1..] == path;
    } else {
      assert whole[1..] == name[1..] + "/" + path;
      assert whole[0] == name[0] && name[0] in name;
      SplitBeneath(name[1..], path);
      assert name == [name[0]] + name[1..];
    }
  }

  /** A walked path splits into real names, the first of them an entry of the directory. */
  lemma {:induction false} WalkedPathsAreSafe(l: Listing)
    requires WellFormed(l)
    ensures forall f <- Walk(l) ::
      && Split(f.path, '/')[0] in Names(l)
      && (forall part <- Split(f.path, '/') :: IsName(part))
      && !f.node.Directory?
  {
    match l
    case Nil =>
    case Cons(name, node, rest) =>
      WalkedPathsAreSafe(rest);
      SplitNonempty(name);
      if node.Directory? {
        var inner := Walk(node.listing);
        WalkedPathsAreSafe(node.listing);
        forall f | f in Beneath(name, inner)
          ensures Split(f.path, '/')[0] == name
            && (forall part <- Split(f.path, '/') :: IsName(part)) && !f.node.Directory?
        {
          var i :| 0 <= i < |inner| && f == Beneath(name, inner)[i];
          assert inner[i] in inner;
          SplitBeneath(name, inner[i].path);
        }
      }
  }

  lemma BeneathStaysUnrelated(name: string, found: seq<Found>)
    requires '/' !in name && Unrelated(found)
    ensures Unrelated(Beneath(name, found))
  {
    var r := Beneath(name, found);
    forall i, j | 0 <= i < |r| && 0 <= j < |r| && i != j ensures !(Split(r[i].path, '/') <= Split(r[j].path, '/')) {
      SplitBeneath(name, found[i].path);
      SplitBeneath(name, found[j].path);
      var a, b := Split(found[i].path, '/'), Split(found[j].path, '/');
      assert ([name] + a)[1..] == a && ([name] + b)[1..] == b;
    }
  }

  /** In a tree a path identifies its entry, and no entry lies beneath another: both follow from one comparison. */
  lemma {:induction false} WalkedPathsAreUnrelated(l: Listing)
    requires WellFormed(l)
    ensures Unrelated(Walk(l))
  {
    match l
    case Nil =>
    case Cons(name, node, rest) =>
      WalkedPathsAreUnrelated(rest);
      WalkedPathsAreSafe(rest);
      var first := if node.Directory? then Beneath(name, Walk(node.listing)) else [Found(name, node)];
      assert Walk(l.(rest := Nil)) == first;
      WalkedPathsAreSafe(l.(rest := Nil));
      if node.Directory? {
        WalkedPathsAreUnrelated(node.listing);
        BeneathStaysUnrelated(name, Walk(node.listing));
      }
      JoinUnrelated(first, Walk(rest), name, Names(rest));
  }

  lemma JoinUnrelated(a: seq<Found>, b: seq<Found>, name: string, names: set<string>)
    requires Unrelated(a) && Unrelated(b) && name !in names
    requires forall f <- a :: Split(f.path, '/')[0] in {name}
    requires forall f <- b :: Split(f.path, '/')[0] in names
    ensures Unrelated(a + b)
  {
    var all := a + b;
    forall i, j | 0 <= i < |all| && 0 <= j < |all| && i != j
      ensures !(Split(all[i].path, '/') <= Split(all[j].path, '/'))
    {
      assert i < |a| ==> all[i] in a;
      assert i >= |a| ==> all[i] == b[i - |a|] && all[i] in b;
      assert j < |a| ==> all[j] in a;
      assert j >= |a| ==> all[j] == b[j - |a|] && all[j] in b;
    }
  }

  // ---------- what may travel

  const DENY_NAMES := {
    "cookies", "cookies-journal", "login data", "login data-journal", "web data", "web data-journal", "key4.db",
    "logins.json", "credentials.json", "passkeys", "passkeys.json", "private_keys", "private-keys", "local state",
    "local storage", "session storage", "managed storage"
  }

  const DENY_PARTS := ["credential", "password", "passkey", "private_key", "private-key", "secret", "token"]

  const CATEGORIES := {"bookmarks", "history", "sessions", "downloads", "policies", "extensions"}

  function Fold(s: string): (r: string)
    ensures |r| == |s|
  {
    seq(|s|, i requires 0 <= i < |s| => if 'A' <= s[i] <= 'Z' then (s[i] as int + 32) as char else s[i])
  }

  predicate Contains(s: string, marker: string) {
    exists i :: 0 <= i <= |s| && marker <= s[i..]
  }

  predicate DeniedPart(part: string) {
    Fold(part) in DENY_NAMES || exists k :: 0 <= k < |DENY_PARTS| && Contains(Fold(part), DENY_PARTS[k])
  }

  /** Some component of the path names a credential store. */
  predicate Denied(path: string) {
    exists part :: part in Split(path, '/') && DeniedPart(part)
  }

  /** The portable allowlist of the legacy profile directory. */
  function ProfileCategory(path: string): Option<string> {
    if '/' !in path then
      if path == "Bookmarks" || path == "Bookmarks.bak" then Some("bookmarks")
      else if path == "History" || path == "History-journal" then Some("history")
      else if path in {"Current Session", "Current Tabs", "Last Session", "Last Tabs"} then Some("sessions")
      else None
    else if "Sessions/" <= path then Some("sessions")
    else if "Extensions/" <= path then Some("extensions")
    else None
  }

  function CategoryOf(rootCategory: string, path: string): Option<string> {
    if rootCategory == "profile" then ProfileCategory(path) else Some(rootCategory)
  }

  /** pathlib's reading of a relative path: empty and `.` components disappear. */
  function PosixParts(path: string): seq<string> {
    Clean(Split(path, '/'))
  }

  function Clean(parts: seq<string>): seq<string> {
    if parts == [] then []
    else (if parts[0] == "" || parts[0] == "." then [] else [parts[0]]) + Clean(parts[1..])
  }

  lemma {:induction false} RealNamesStay(parts: seq<string>)
    requires forall part <- parts :: IsName(part)
    ensures Clean(parts) == parts
  {
    if parts == [] {
    } else {
      assert parts[0] in parts && parts == [parts[0]] + parts[1..];
      RealNamesStay(parts[1..]);
    }
  }

  /** Where the bundle keeps a file, as path components. */
  function OutputParts(category: string, path: string): seq<string> {
    ["payload", category] + PosixParts(path)
  }
}

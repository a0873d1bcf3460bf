/** Data keys: the wrapped ones in the database, the unwrapped ones in memory, and the operations that must keep them in step. */
module KeyStore {
  import opened ByteStrings
  import opened Crypto
  import MasterKey

  /** A row of `personal_libraries` or `spaces`. */
  datatype Row = Row(owner: string, mode: string, wrapped: Bytes)

  type Rows = map<string, Row>

  type Keys = map<string, Bytes>

  datatype AppError = NotFound | Conflict | Storage

  /** The step of an operation that fails, if any. Making a directory can fail with the directory made (`left`). */
  datatype Failure = NoFailure | InsertFails | DirectoryFails(left: bool) | MarkFails

  /** Which of the best-effort undo steps succeed. */
  datatype Undo = Undo(row: bool, directory: bool)

  /** A row was inserted and an undo was due but failed. */
  predicate Stuck(failure: Failure, undo: Undo) {
    (failure.DirectoryFails? || failure.MarkFails?) && !undo.row
  }

  predicate Unwraps(a: Aead, master: Bytes, row: Row) {
    MasterKey.Unwrap(a, master, row.wrapped).Some?
  }

  /** The key of every server-mode row that unwraps. */
  function ServerKeys(a: Aead, master: Bytes, rows: Rows): Keys {
    map id | id in rows && rows[id].mode == "server" && Unwraps(a, master, rows[id]) :: MasterKey.Unwrap(a, master, rows[id].wrapped).value
  }

  predicate HasLibrary(libraries: Rows, user: string) {
    exists id :: id in libraries && libraries[id].owner == user
  }

  /** A user is marked set up exactly when they have a library. */
  predicate SetupMatches(users: map<string, bool>, libraries: Rows) {
    && (forall user :: user in users ==> (users[user] <==> HasLibrary(libraries, user)))
    && (forall id :: id in libraries ==> libraries[id].owner in users)
  }

  predicate OneLibraryEach(libraries: Rows) {
    forall i, j :: i in libraries && j in libraries && libraries[i].owner == libraries[j].owner ==> i == j
  }

  /** Wrapping a key into a new server-mode row adds that very key to what the rows unwrap to. */
  lemma NewRowAddsItsKey(a: Aead, master: Bytes, rows: Rows, id: string, owner: string, key: Bytes, nonce: Bytes)
    requires LawfulAead(a) && |key| == KEY_LEN && |nonce| == NONCE_LEN && id !in rows
    ensures var row := Row(owner, "server", MasterKey.Wrap(a, master, nonce, key));
      ServerKeys(a, master, rows[id := row]) == ServerKeys(a, master, rows)[id := key]
  {
    MasterKey.UnwrapUndoesWrap(a, master, nonce, key);
  }

  function Restricted(keys: Keys, ids: set<string>): Keys {
    map id | id in keys && id in ids :: keys[id]
  }

  lemma RestrictedToOneMore(keys: Keys, ids: set<string>, id: string, before: Keys)
    requires id !in ids
    ensures id in keys ==>
      && before + Restricted(keys, ids + {id}) == (before + Restricted(keys, ids))[id := keys[id]]
      && |Restricted(keys, ids + {id})| == |Restricted(keys, ids)| + 1
    ensures id !in keys ==> Restricted(keys, ids + {id}) == Restricted(keys, ids)
  {
    if id in keys {
      assert Restricted(keys, ids + {id}) == Restricted(keys, ids)[id := keys[id]];
    }
  }

  lemma InsertIsUndone<T>(m: map<string, T>, id: string, value: T)
    requires id !in m
    ensures m[id := value] - {id} == m
  {
  }

  lemma NothingBefore(keys: Keys)
    ensures map[] + keys == keys
  {
  }

  lemma ServerKeyOf(a: Aead, master: Bytes, rows: Rows, id: string)
    requires id in rows && rows[id].mode == "server"
    ensures id in ServerKeys(a, master, rows) <==> MasterKey.Unwrap(a, master, rows[id].wrapped).Some?
    ensures id in ServerKeys(a, master, rows) ==> MasterKey.Unwrap(a, master, rows[id].wrapped) == Some(ServerKeys(a, master, rows)[id])
  {
  }

  /** The loop of both `load_server_mode_keys`: rows are taken in any order, and one that does not unwrap is skipped. */
  method LoadServerKeys(a: Aead, master: Bytes, rows: Rows, before: Keys) returns (keys: Keys, loaded: nat)
    ensures keys == before + ServerKeys(a, master, rows)
    ensures loaded == |ServerKeys(a, master, rows)|
  {
    var selected := set id | id in rows && rows[id].mode == "server";
    var rest := selected;
    ghost var done: set<string> := {};
    ghost var all := ServerKeys(a, master, rows);
    assert all.Keys <= selected;
    keys, loaded := before, 0;
    while rest != {}
      invariant rest <= selected && rest !! done && forall id :: id in selected ==> id in rest || id in done
      invariant keys == before + Restricted(all, done) && loaded == |Restricted(all, done)|
    {
      var id :| id in rest;
      assert id in selected;
      ServerKeyOf(a, master, rows, id);
      RestrictedToOneMore(all, done, id, before);
      var key := MasterKey.Unwrap(a, master, rows[id].wrapped);
      if key.Some? {
        keys, loaded := keys[id := key.value], loaded + 1;
      }
      rest := rest - {id};
      done := done + {id};
    }
    assert Restricted(all, done) == all;
  }

  /** Memory holds exactly the key of every server-mode row. */
  predicate KeysKept(a: Aead, master: Bytes, rows: Rows, keys: Keys) {
    keys == ServerKeys(a, master, rows)
  }

  ghost predicate UsersKept(users: map<string, bool>, libraries: Rows) {
    SetupMatches(users, libraries) && OneLibraryEach(libraries)
  }

  lemma SetupKeepsUsers(users: map<string, bool>, libraries: Rows, user: string, id: string, row: Row)
    requires user in users && row.owner == user && id !in libraries && !HasLibrary(libraries, user)
    requires UsersKept(users, libraries)
    ensures UsersKept(users[user := true], libraries[id := row])
  {
    SetupStillMatches(users, libraries, user, id, row);
  }

  /** A row left behind by a failed undo breaks the match of flags and libraries, and its key is in no map. */
  lemma StuckRowShows(a: Aead, master: Bytes, users: map<string, bool>, libraries: Rows, keys: Keys,
                      user: string, id: string, key: Bytes, nonce: Bytes)
    requires LawfulAead(a) && |key| == KEY_LEN && |nonce| == NONCE_LEN && id !in libraries
    requires user in users && !users[user] && KeysKept(a, master, libraries, keys)
    ensures var left := libraries[id := Row(user, "server", MasterKey.Wrap(a, master, nonce, key))];
      && !SetupMatches(users, left)
      && !KeysKept(a, master, left, keys)
      && ServerKeys(a, master, left) == keys[id := key]
  {
    NewRowAddsItsKey(a, master, libraries, id, user, key, nonce);
    var left := libraries[id := Row(user, "server", MasterKey.Wrap(a, master, nonce, key))];
    assert id in left && left[id].owner == user;
    assert id in ServerKeys(a, master, left) && id !in keys;
  }

  /** The database tables that hold keys, the directories on disk, and the key maps of the running process (`UnlockState`). */
  class Server {
    const aead: Aead
    const master: Bytes
    var users: map<string, bool>       // user to setup_complete
    var libraries: Rows
    var spaces: Rows
    var directories: set<string>       // ids of libraries and spaces that have one
    var libraryKeys: Keys
    var spaceKeys: Keys

    constructor (aead: Aead, master: Bytes)
      requires LawfulAead(aead)
      ensures Valid() && this.aead == aead && this.master == master
      ensures users == map[] && libraries == map[] && spaces == map[] && libraryKeys == map[] && spaceKeys == map[]
    {
      this.aead, this.master := aead, master;
      users, libraries, spaces, directories, libraryKeys, spaceKeys := map[], map[], map[], {}, map[], map[];
    }

    /** Memory holds exactly the keys of the rows, flags match the libraries, and every row has its directory. */
    ghost predicate Valid()
      reads this
    {
      && LawfulAead(aead)
      && KeysKept(aead, master, libraries, libraryKeys) && KeysKept(aead, master, spaces, spaceKeys)
      && UsersKept(users, libraries)
      && libraries.Keys <= directories && spaces.Keys <= directories
    }

    method Register(user: string) returns (ok: bool)
      modifies this`users
      ensures old(Valid()) ==> Valid()
      ensures ok <==> user !in old(users)
      ensures users == if ok then old(users)[user := false] else old(users)
    {
      if user in users {
        return false;
      }
      users := users[user := false];
      ok := true;
    }

    /** The checks of `setup_library`, in order. */
    predicate MaySetUp(user: string)
      reads this
    {
      user in users && !users[user] && !HasLibrary(libraries, user)
    }

    /**
      `setup_library`: the row, the directory, the key in memory, the flag; a failure undoes what went before as far as the
      undo steps succeed. What was consistent stays so exactly when no undo leaves the row behind.
     */
    method SetupLibrary(user: string, id: string, key: Bytes, nonce: Bytes, failure: Failure, undo: Undo)
      returns (r: Result<(), AppError>)
      requires LawfulAead(aead) && |key| == KEY_LEN && |nonce| == NONCE_LEN
      requires id !in libraries && id !in libraryKeys && id !in directories
      modifies this`users, this`libraries, this`directories, this`libraryKeys
      ensures r.Ok? <==> user in old(users) && !old(users)[user] && !HasLibrary(old(libraries), user) && failure.NoFailure?
      ensures r.Err? ==>
        r.error == if user !in old(users) then NotFound else if !old(users)[user] && !HasLibrary(old(libraries), user) then Storage else Conflict
      ensures users == if r.Ok? then old(users)[user := true] else old(users)
      ensures libraryKeys == if r.Ok? then old(libraryKeys)[id := key] else old(libraryKeys)
      ensures var row := Row(user, "server", MasterKey.Wrap(aead, master, nonce, key));
        libraries == if r.Ok? || (old(MaySetUp(user)) && Stuck(failure, undo)) then old(libraries)[id := row] else old(libraries)
      ensures directories == old(directories) + (
        if r.Ok? || (old(MaySetUp(user)) && (failure == DirectoryFails(true) || (failure.MarkFails? && !undo.directory)))
        then {id} else {})
      ensures old(Valid()) ==> (Valid() <==> !(old(MaySetUp(user)) && Stuck(failure, undo)))
    {
      if user !in users {
        return Err(NotFound);
      }
      if users[user] || HasLibrary(libraries, user) {
        return Err(Conflict);
      }
      ghost var row := Row(user, "server", MasterKey.Wrap(aead, master, nonce, key));
      NewRowAddsItsKey(aead, master, libraries, id, user, key, nonce);
      if Valid() {
        SetupKeepsUsers(users, libraries, user, id, row);
        StuckRowShows(aead, master, users, libraries, libraryKeys, user, id, key, nonce);
      }
      r := EstablishLibrary(user, id, key, nonce, failure, undo);
      if r.Ok? {
        users := users[user := true];
      }
    }

    /** The rows, directory and key of `setup_library`, and their undoing. */
    method EstablishLibrary(user: string, id: string, key: Bytes, nonce: Bytes, failure: Failure, undo: Undo)
      returns (r: Result<(), AppError>)
      requires LawfulAead(aead) && |key| == KEY_LEN && |nonce| == NONCE_LEN && MaySetUp(user)
      requires id !in libraries && id !in libraryKeys && id !in directories
      modifies this`libraries, this`directories, this`libraryKeys
      ensures r == if failure.NoFailure? then Ok(()) else Err(Storage)
      ensures libraryKeys == if r.Ok? then old(libraryKeys)[id := key] else old(libraryKeys)
      ensures var row := Row(user, "server", MasterKey.Wrap(aead, master, nonce, key));
        libraries == if r.Ok? || Stuck(failure, undo) then old(libraries)[id := row] else old(libraries)
      ensures directories == old(directories) + (
        if r.Ok? || failure == DirectoryFails(true) || (failure.MarkFails? && !undo.directory) then {id} else {})
    {
      if failure.InsertFails? {
        return Err(Storage);
      }
      var row := Row(user, "server", MasterKey.Wrap(aead, master, nonce, key));
      InsertIsUndone(libraries, id, row);
      InsertIsUndone(libraryKeys, id, key);
      libraries := libraries[id := row];
      if failure.DirectoryFails? {
        if failure.left {
          directories := directories + {id};
        }
        if undo.row {
          libraries := libraries - {id};
        }
        return Err(Storage);
      }
      directories := directories + {id};
      libraryKeys := libraryKeys[id := key];
      if failure.MarkFails? {
        libraryKeys := libraryKeys - {id};
        if undo.directory {
          directories := directories - {id};
        }
        if undo.row {
          libraries := libraries - {id};
        }
        return Err(Storage);
      }
      r := Ok(());
    }

    /** `create_space` and `create_group_space`; consistent exactly when no undo leaves the row behind. */
    method CreateSpace(owner: string, id: string, key: Bytes, nonce: Bytes, failure: Failure, undo: Undo)
      returns (r: Result<(), AppError>)
      requires LawfulAead(aead) && |key| == KEY_LEN && |nonce| == NONCE_LEN && !failure.MarkFails?
      requires id !in spaces && id !in spaceKeys && id !in directories
      modifies this`spaces, this`directories, this`spaceKeys
      ensures r == if failure.NoFailure? then Ok(()) else Err(Storage)
      ensures spaceKeys == if r.Ok? then old(spaceKeys)[id := key] else old(spaceKeys)
      ensures var row := Row(owner, "server", MasterKey.Wrap(aead, master, nonce, key));
        spaces == if r.Ok? || Stuck(failure, undo) then old(spaces)[id := row] else old(spaces)
      ensures directories == old(directories) + (if r.Ok? || failure == DirectoryFails(true) then {id} else {})
      ensures old(Valid()) ==> (Valid() <==> !Stuck(failure, undo))
    {
      if failure.InsertFails? {
        return Err(Storage);
      }
      var row := Row(owner, "server", MasterKey.Wrap(aead, master, nonce, key));
      NewRowAddsItsKey(aead, master, spaces, id, owner, key, nonce);
      InsertIsUndone(spaces, id, row);
      assert id in ServerKeys(aead, master, spaces[id := row]);
      spaces := spaces[id := row];
      if failure.DirectoryFails? {
        if failure.left {
          directories := directories + {id};
        }
        if undo.row {
          spaces := spaces - {id};
        }
        return Err(Storage);
      }
      directories := directories + {id};
      spaceKeys := spaceKeys[id := key];
      r := Ok(());
    }

    /** `delete_space`: `permitted` is the outcome of its permission check, `removed` whether the directory could be removed. */
    method DeleteSpace(permitted: Result<(), AppError>, id: string, removed: bool) returns (r: Result<(), AppError>)
      modifies this`spaces, this`directories, this`spaceKeys
      ensures old(Valid()) && id !in libraries ==> Valid()
      ensures permitted.Err? ==> r == permitted
      ensures permitted.Ok? ==> (r.Ok? <==> id in old(spaces)) && (r.Err? ==> r.error == NotFound)
      ensures r.Ok? ==> spaces == old(spaces) - {id} && spaceKeys == old(spaceKeys) - {id}
      ensures r.Ok? ==> directories == if removed then old(directories) - {id} else old(directories)
      ensures r.Err? ==> spaces == old(spaces) && spaceKeys == old(spaceKeys) && directories == old(directories)
    {
      if permitted.Err? {
        return permitted;
      }
      if id !in spaces {
        return Err(NotFound);
      }
      spaces := spaces - {id};
      spaceKeys := spaceKeys - {id};
      if removed {
        directories := directories - {id};
      }
      r := Ok(());
    }

    method ClearAll()
      modifies this`libraryKeys, this`spaceKeys
      ensures libraryKeys == map[] && spaceKeys == map[]
    {
      libraryKeys, spaceKeys := map[], map[];
    }

    /** A restart drops the maps and loads them again. From a consistent state it cannot be seen: key for key they are as they were. */
    method Restart() returns (loadedLibraries: nat, loadedSpaces: nat)
      modifies this`libraryKeys, this`spaceKeys
      ensures libraryKeys == ServerKeys(aead, master, libraries) && loadedLibraries == |libraryKeys|
      ensures spaceKeys == ServerKeys(aead, master, spaces) && loadedSpaces == |spaceKeys|
      ensures old(Valid()) ==> libraryKeys == old(libraryKeys) && spaceKeys == old(spaceKeys)
    {
      ClearAll();
      NothingBefore(ServerKeys(aead, master, libraries));
      libraryKeys, loadedLibraries := LoadServerKeys(aead, master, libraries, libraryKeys);
      NothingBefore(ServerKeys(aead, master, spaces));
      spaceKeys, loadedSpaces := LoadServerKeys(aead, master, spaces, spaceKeys);
    }
  }

  lemma SetupStillMatches(users: map<string, bool>, libraries: Rows, user: string, id: string, row: Row)
    requires user in users && row.owner == user && id !in libraries
    ensures SetupMatches(users, libraries) ==> SetupMatches(users[user := true], libraries[id := row])
  {
    var (u, l) := (users[user := true], libraries[id := row]);
    if SetupMatches(users, libraries) {
      assert id in l && l[id].owner == user;
      forall other | other in u ensures u[other] <==> HasLibrary(l, other) {
        if other != user && HasLibrary(libraries, other) {
          var i :| i in libraries && libraries[i].owner == other;
          assert i in l && l[i].owner == other;
        }
      }
    }
  }
}

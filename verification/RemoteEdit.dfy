/**
 * Optimistic editing of remote text files (internal/api/remote_edit.go): open, and save with compare and read-back.
 */
module RemoteEdit {
  import opened Wrappers
  import opened Bytes

  const MAX_REMOTE_EDIT_BYTES: nat := 4194304

  type Text = seq<Byte>

  datatype Kind = Regular | Directory | Symlink

  datatype RemoteFile = RemoteFile(kind: Kind, content: Text, permissions: string)

  type RemoteFiles = map<string, RemoteFile>

  /**
   * The parts of the program the editor relies on: the digest, its syntax check, UTF-8, path validation, permission
   * modes.
   */
  datatype Rules = Rules(
    revision: Text -> string, validRevision: string -> bool, utf8: Text -> bool, validPath: string -> bool,
    mode: string -> string)

  /** Revisions are digests: well-formed, and different for different contents. A mode is its own mode. */
  ghost predicate Lawful(rules: Rules)
  {
    (forall a: Text :: rules.validRevision(rules.revision(a))) &&
    (forall a: Text, b: Text {:trigger rules.revision(a), rules.revision(b)} ::
       rules.revision(a) == rules.revision(b) ==> a == b) &&
    forall p: string :: rules.mode(p) != "" ==> rules.mode(rules.mode(p)) == rules.mode(p)
  }

  datatype Error =
    | NotAllowed | TooLarge | Binary | Failed | BadRevision | Conflict | CannotKeepPermissions | PermissionsLost
    | NotVerified | Mismatch

  datatype Document = Document(path: string, text: Text, revision: string, size: nat, permissions: string)

  type Outcome = Result<Document, Error>

  // ----- What can be edited -----

  predicate ValidText(rules: Rules, data: Text)
  {
    |data| <= MAX_REMOTE_EDIT_BYTES && rules.utf8(data) && 0 !in data
  }

  /** A regular file of valid text. */
  predicate Editable(rules: Rules, files: RemoteFiles, path: string)
  {
    rules.validPath(path) && path in files && files[path].kind.Regular? && ValidText(rules, files[path].content)
  }

  /** Nothing changed except perhaps this file. */
  predicate OnlyAt(path: string, before: RemoteFiles, after: RemoteFiles)
  {
    (forall p :: p in before && p != path ==> p in after && after[p] == before[p]) &&
    forall p :: p in after && p != path ==> p in before
  }

  function ContentAt(files: RemoteFiles, path: string): Option<Text>
  {
    if path in files then Some(files[path].content) else None
  }

  /** `validateRemoteEditText` */
  method ValidateText(rules: Rules, data: Text) returns (e: Option<Error>)
    ensures e.None? <==> ValidText(rules, data)
    ensures e.None? <==> |data| <= 4194304 && rules.utf8(data) && 0 !in data
    ensures e == Some(TooLarge) <==> |data| > 4194304
    ensures e.Some? ==> e.value == TooLarge || e.value == Binary
  {
    if |data| > MAX_REMOTE_EDIT_BYTES { return Some(TooLarge); }
    if !rules.utf8(data) { return Some(Binary); }
    var i := 0;
    while i < |data|
      invariant 0 <= i <= |data| && 0 !in data[..i]
    {
      if data[i] == 0 { return Some(Binary); }
      i := i + 1;
    }
    assert data[..i] == data;
    return None;
  }

  /**
   * A connection to the server. Unless it is reliable, any operation may fail, and a failed or odd upload may leave
   * anything.
   */
  class Session {
    const rules: Rules
    var files: RemoteFiles
    var reliable: bool
    var canChmod: bool  // the server lets this client set permissions

    method Fails() returns (failed: bool)
      ensures reliable ==> !failed
    {
      failed := *;
      failed := failed && !reliable;
    }

    /** The listed item: kind, size and permissions; the size may be wrong. */
    method Find(path: string) returns (r: Option<(Kind, nat, string)>)
      ensures r.Some? ==> path in files && r.value.0 == files[path].kind && r.value.2 == files[path].permissions
      ensures reliable ==> (r.Some? <==> path in files) && (r.Some? ==> r.value.1 == |files[path].content|)
    {
      var failed := Fails();
      if failed || path !in files { return None; }
      var size: nat := *;
      if reliable { size := |files[path].content|; }
      return Some((files[path].kind, size, files[path].permissions));
    }

    method Download(path: string) returns (r: Option<Text>)
      ensures r.Some? ==> path in files && r.value == files[path].content
      ensures reliable && path in files ==> r.Some?
    {
      var failed := Fails();
      if failed || path !in files { return None; }
      return Some(files[path].content);
    }

    method Upload(path: string, data: Text) returns (ok: bool)
      modifies `files
      ensures OnlyAt(path, old(files), files)
      ensures reliable ==> ok && path in files && files[path].kind.Regular? && files[path].content == data
    {
      if reliable {
        var permissions: string := *;
        files := files[path := RemoteFile(Regular, data, permissions)];
        return true;
      }
      var gone: bool := *;
      if gone {
        files := files - {path};
      } else {
        var left: RemoteFile := *;
        files := files[path := left];
      }
      ok := *;
    }

    method Chmod(path: string, mode: string) returns (ok: bool)
      modifies `files
      ensures files ==
              (if ok && path in old(files) then old(files)[path := old(files)[path].(permissions := mode)]
               else old(files))
      ensures reliable && canChmod && path in old(files) ==> ok
      ensures reliable && !canChmod ==> !ok
    {
      var failed := Fails();
      if failed || !canChmod || path !in files { return false; }
      files := files[path := files[path].(permissions := mode)];
      return true;
    }

    /** `openRemoteEditWithSession` with `editableRemoteItem` and `readRemoteEditFile`. */
    method Open(path: string) returns (r: Outcome)
      ensures r.Ok? ==> Editable(rules, files, path)
      ensures r.Ok? ==>
                r.value.path == path && r.value.text == files[path].content && r.value.size == |files[path].content| &&
                r.value.revision == rules.revision(r.value.text) && r.value.permissions == files[path].permissions
      ensures r.Ok? ==> files[path].kind == Regular && |r.value.text| <= 4194304 && 0 !in r.value.text
      ensures reliable ==> (r.Ok? <==> Editable(rules, files, path))
      ensures r.Err? ==> r.error.NotAllowed? || r.error.TooLarge? || r.error.Binary? || r.error.Failed?
    {
      if !rules.validPath(path) { return Err(NotAllowed); }
      var item := Find(path);
      if item.None? { return Err(NotAllowed); }
      if !item.value.0.Regular? { return Err(NotAllowed); }
      if item.value.1 > MAX_REMOTE_EDIT_BYTES { return Err(TooLarge); }
      var failed := Fails();
      if failed { return Err(Failed); }
      var data := Download(path);
      if data.None? { return Err(Failed); }
      var bad := ValidateText(rules, data.value);
      if bad.Some? { return Err(bad.value); }
      return Ok(Document(path, data.value, rules.revision(data.value), |data.value|, item.value.2));
    }

    /**
     * `saveRemoteEditWithSession`. The file only ever changes when its content had the expected revision; a conflict
     * changes nothing; success means that reading back gave the submitted text.
     */
    method Save(path: string, expected: string, text: Text) returns (r: Outcome)
      requires Lawful(rules)
      modifies `files
      ensures OnlyAt(path, old(files), files)
      ensures ContentAt(files, path) != ContentAt(old(files), path) ==>
                Editable(rules, old(files), path) && rules.revision(old(files)[path].content) == expected &&
                ValidText(rules, text)
      ensures r.Ok? ==> Editable(rules, old(files), path) && rules.revision(old(files)[path].content) == expected
      ensures r.Ok? ==>
                Editable(rules, files, path) && files[path].content == text && r.value.path == path &&
                r.value.text == text && r.value.size == |text| && r.value.revision == rules.revision(text) &&
                r.value.permissions == files[path].permissions
      ensures r.Ok? && rules.mode(old(files)[path].permissions) != "" ==>
                rules.mode(files[path].permissions) == rules.mode(old(files)[path].permissions)
      ensures r == Err(Conflict) ==> files == old(files) && Editable(rules, old(files), path) &&
                                     rules.revision(old(files)[path].content) != expected
      ensures reliable && rules.validRevision(expected) && ValidText(rules, text) &&
              Editable(rules, old(files), path) ==>
                (r == Err(Conflict) <==> rules.revision(old(files)[path].content) != expected)
      ensures reliable ==> (r.Ok? <==> Saves(rules, old(files), path, expected, text, canChmod))
    {
      if !rules.validRevision(expected) { return Err(BadRevision); }
      var bad := ValidateText(rules, text);
      if bad.Some? { return Err(bad.value); }
      var current := Open(path);
      if current.Err? { return Err(current.error); }
      if current.value.revision != expected { return Err(Conflict); }
      var mode := rules.mode(current.value.permissions);
      if mode != "" {
        var kept := Chmod(path, mode);
        if !kept { return Err(CannotKeepPermissions); }
      }
      var failed := Fails();
      if failed { return Err(Failed); }
      var uploaded := Upload(path, text);
      if !uploaded { return Err(Failed); }
      if mode != "" {
        var kept := Chmod(path, mode);
        if !kept { return Err(PermissionsLost); }
      }
      var verified := Open(path);
      if verified.Err? { return Err(NotVerified); }
      if verified.value.revision != rules.revision(text) { return Err(Mismatch); }
      return verified;
    }
  }

  /** On a reliable server, exactly when a save goes through. */
  predicate Saves(rules: Rules, files: RemoteFiles, path: string, expected: string, text: Text, canChmod: bool)
  {
    ValidText(rules, text) && Editable(rules, files, path) && rules.revision(files[path].content) == expected &&
    (rules.mode(files[path].permissions) == "" || canChmod)
  }

  // ----- Whole runs -----

  /** The contents a file went through, and for each change the revision its editor had seen. */
  datatype History = History(versions: seq<Option<Text>>, bases: seq<string>)

  /** Every change was made by someone who had seen the version right before it. */
  ghost predicate Linear(rules: Rules, h: History, content: Option<Text>)
  {
    |h.versions| == |h.bases| + 1 && h.versions[|h.bases|] == content &&
    forall i :: 0 <= i < |h.bases| ==> h.versions[i].Some? && rules.revision(h.versions[i].value) == h.bases[i]
  }

  function Start(content: Option<Text>): History
  {
    History([content], [])
  }

  function Changed(h: History, expected: string, content: Option<Text>): History
  {
    History(h.versions + [content], h.bases + [expected])
  }

  /** The document holds a version of its file, under the revision of its text. */
  ghost predicate Seen(rules: Rules, histories: map<string, History>, d: Document)
  {
    d.revision == rules.revision(d.text) && d.path in histories && Some(d.text) in histories[d.path].versions
  }

  /** Every file has a linear history that ends with its content, and what was shown was seen there. */
  ghost predicate Consistent(rules: Rules, histories: map<string, History>, files: RemoteFiles, shown: set<Document>)
  {
    (forall p :: p in files ==> p in histories) &&
    (forall p :: p in histories ==> Linear(rules, histories[p], ContentAt(files, p))) &&
    forall d :: d in shown ==> Seen(rules, histories, d)
  }

  /** The histories after a save: longer by one change if the content of the file changed. */
  ghost function Next(histories: map<string, History>, before: RemoteFiles, after: RemoteFiles, path: string,
                      expected: string): map<string, History>
    requires ContentAt(after, path) != ContentAt(before, path) ==> path in histories
  {
    if ContentAt(after, path) == ContentAt(before, path) then histories
    else histories[path := Changed(histories[path], expected, ContentAt(after, path))]
  }

  /** Editors that open and save one after the other, and nobody else. */
  class Workbench {
    const session: Session
    ghost var histories: map<string, History>
    ghost var shown: set<Document>  // every document handed to an editor

    constructor (session: Session)
      requires Lawful(session.rules)
      ensures this.session == session && Valid()
    {
      this.session := session;
      histories := map p | p in session.files :: Start(ContentAt(session.files, p));
      shown := {};
    }

    ghost predicate Valid()
      reads this, session
    {
      Lawful(session.rules) && Consistent(session.rules, histories, session.files, shown)
    }

    method Open(path: string) returns (r: Outcome)
      requires Valid()
      modifies this`shown
      ensures Valid() && shown == old(shown) + (if r.Ok? then {r.value} else {})
      ensures r.Ok? ==>
                Editable(session.rules, session.files, path) && r.value.path == path &&
                r.value.text == session.files[path].content && r.value.size == |session.files[path].content| &&
                r.value.revision == session.rules.revision(r.value.text) &&
                r.value.permissions == session.files[path].permissions
    {
      r := session.Open(path);
      if r.Ok? {
        SavedIsSeen(session.rules, histories, session.files, shown, r.value);
        shown := shown + {r.value};
      }
    }

    /** Any save, successful or not, keeps every history linear, and adds to this file's only what it changed. */
    method Save(path: string, expected: string, text: Text) returns (r: Outcome)
      requires Valid()
      modifies this`histories, this`shown, session`files
      ensures Valid() && old(histories).Keys <= histories.Keys
      ensures shown == old(shown) + (if r.Ok? then {r.value} else {})
      ensures forall p :: p in old(histories) ==>
                histories[p] == old(histories)[p] ||
                (p == path && histories[p] == Changed(old(histories)[p], expected, ContentAt(session.files, p)))
      ensures r.Ok? ==> path in histories && histories[path].versions[|histories[path].bases|] == Some(text)
      ensures r.Ok? ==> r.value.path == path && r.value.text == text
      ensures r == Err(Conflict) ==> histories == old(histories) && session.files == old(session.files)
    {
      ghost var before := session.files;
      r := session.Save(path, expected, text);
      SaveKeeps(session.rules, histories, before, session.files, path, expected, shown);
      histories := Next(histories, before, session.files, path, expected);
      if r.Ok? {
        SavedIsSeen(session.rules, histories, session.files, shown, r.value);
        shown := shown + {r.value};
      }
    }
  }

  lemma SaveKeeps(rules: Rules, histories: map<string, History>, before: RemoteFiles, after: RemoteFiles, path: string,
                  expected: string, shown: set<Document>)
    requires Consistent(rules, histories, before, shown) && OnlyAt(path, before, after)
    requires ContentAt(after, path) != ContentAt(before, path) ==>
               path in before && rules.revision(before[path].content) == expected
    ensures Consistent(rules, Next(histories, before, after, path, expected), after, shown)
  {
    var next := Next(histories, before, after, path, expected);
    forall p | p in next ensures Linear(rules, next[p], ContentAt(after, p)) {
      assert p != path ==> ContentAt(after, p) == ContentAt(before, p);
      assert Linear(rules, histories[p], ContentAt(before, p));
    }
    forall d | d in shown ensures Seen(rules, next, d) {
      assert Seen(rules, histories, d);
    }
  }

  /** A document with the content of its file is seen. */
  lemma SavedIsSeen(rules: Rules, histories: map<string, History>, files: RemoteFiles, shown: set<Document>,
                    d: Document)
    requires Consistent(rules, histories, files, shown)
    requires d.path in files && d.text == files[d.path].content && d.revision == rules.revision(d.text)
    ensures Seen(rules, histories, d) && Consistent(rules, histories, files, shown + {d})
  {
    assert Linear(rules, histories[d.path], ContentAt(files, d.path));
  }

  /**
   * No update is lost. Every document an editor was handed held a version of its file, and whoever made a change with
   * its revision had been shown exactly the text that the change replaced.
   */
  lemma NoLostUpdate(w: Workbench, path: string, i: nat, d: Document)
    requires w.Valid() && d in w.shown
    ensures d.path in w.histories && Some(d.text) in w.histories[d.path].versions
    ensures path in w.histories && i < |w.histories[path].bases| && w.histories[path].bases[i] == d.revision ==>
              |w.histories[path].versions| == |w.histories[path].bases| + 1 &&
              w.histories[path].versions[i] == Some(d.text)
  {
    var rules := w.session.rules;
    assert Seen(rules, w.histories, d);
    if path in w.histories && i < |w.histories[path].bases| && w.histories[path].bases[i] == d.revision {
      assert Linear(rules, w.histories[path], ContentAt(w.session.files, path));
      assert rules.revision(w.histories[path].versions[i].value) == rules.revision(d.text);
    }
  }

  /** Of two editors who opened the same text, the second to save cannot succeed unless the first changed nothing. */
  lemma SecondSaverConflicts(rules: Rules, first: RemoteFiles, second: RemoteFiles, path: string, text: Text,
                             canChmod: bool)
    requires Lawful(rules) && Editable(rules, first, path) && Editable(rules, second, path)
    requires first[path].content != second[path].content
    ensures !Saves(rules, second, path, rules.revision(first[path].content), text, canChmod)
  {
    var a, b := first[path].content, second[path].content;
    assert rules.revision(a) != rules.revision(b);
  }
}

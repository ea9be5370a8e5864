/**
 * src/storage.js: the client-side storage session `MiloStorage`. A Blockly
 * document is abstracted to the sequence of its block types; the server is
 * reached only through requests appended to an outbox and responses handed
 * back to the `...Done` methods; the dataset registry and the generator table
 * are an environment value.
 */
module Storage {
  import opened Wrappers
  import opened Strings

  /** A Blockly document, as the types of its blocks in document order. */
  type Xml = seq<string>

  /** The text of a document: one that `textToDom` parses, or one it rejects. */
  datatype XmlText = Text(doc: Xml) | Malformed(raw: string)

  /**
   * What pruning consults: the block types that have a code generator
   * (`Blockly.JavaScript[type]` defined) and the loaded datasets
   * (`Datasets.loaded`).
   */
  datatype Env = Env(defined: set<string>, loaded: set<string>)

  // ---------------------------------------------------------------------------
  // Pruning (src/storage.js:203-222).
  // ---------------------------------------------------------------------------

  /** `s.split(sep)[0]`: the part of `s` before the first occurrence of `sep`. */
  function SplitHead(s: string, sep: string): (head: string)
    requires sep != []
    ensures head <= s
    ensures head == s || OccursAt(s, sep, |head|)
    ensures forall i :: 0 <= i < |head| ==> !OccursAt(s, sep, i)
    decreases |s|
  {
    if |s| < |sep| then s
    else if s[..|sep|] == sep then []
    else
      var rest := SplitHead(s[1..], sep);
      SplitHeadStep(s, sep, rest);
      [s[0]] + rest
  }

  /** A head of `s[1..]` with the three properties gives one of `s` when `sep` does not start `s`. */
  lemma SplitHeadStep(s: string, sep: string, rest: string)
    requires sep != [] && |s| >= |sep| && s[..|sep|] != sep
    requires rest <= s[1..]
    requires rest == s[1..] || OccursAt(s[1..], sep, |rest|)
    requires forall i :: 0 <= i < |rest| ==> !OccursAt(s[1..], sep, i)
    ensures [s[0]] + rest <= s
    ensures [s[0]] + rest == s || OccursAt(s, sep, |rest| + 1)
    ensures forall i :: 0 <= i < |rest| + 1 ==> !OccursAt(s, sep, i)
  {
    forall i | 1 <= i <= |s|
      ensures OccursAt(s, sep, i) <==> OccursAt(s[1..], sep, i - 1)
    {
      if i + |sep| <= |s| {
        assert s[i..i + |sep|] == s[1..][i - 1..i - 1 + |sep|];
      }
    }
    assert !OccursAt(s, sep, 0);
    assert [s[0]] + s[1..] == s;
  }

  const GetSuffix: string := "_get"

  /** A dataset accessor block, matched by the selector `block[type$='_get']`. */
  predicate IsGetType(t: string) { EndsWith(t, GetSuffix) }

  /** The dataset an accessor type belongs to. */
  function DatasetName(t: string): string { SplitHead(t, GetSuffix) }

  /** An accessor type without a generator. */
  predicate Undefined(t: string, env: Env) { IsGetType(t) && t !in env.defined }

  /** Its dataset is loaded, so it is imported. */
  predicate Importable(t: string, env: Env) { Undefined(t, env) && DatasetName(t) in env.loaded }

  /** Its dataset is unknown, so every block of this type is removed. */
  predicate Doomed(t: string, env: Env) { Undefined(t, env) && DatasetName(t) !in env.loaded }

  /** The document with every doomed block removed. */
  function Pruned(doc: Xml, env: Env): Xml {
    if doc == [] then []
    else (if Doomed(doc[0], env) then [] else [doc[0]]) + Pruned(doc[1..], env)
  }

  /** The keys of `toImport`, in the order the blocks first mention them. */
  function ImportsOf(doc: Xml, env: Env): seq<string> {
    if doc == [] then []
    else
      var before := ImportsOf(doc[..|doc| - 1], env);
      var t := doc[|doc| - 1];
      if Importable(t, env) && DatasetName(t) !in before then before + [DatasetName(t)] else before
  }

  /** Pruning keeps every block of a type that is not doomed and no block of a doomed type. */
  lemma {:induction false} PrunedCounts(doc: Xml, env: Env)
    ensures forall t :: multiset(Pruned(doc, env))[t] == if Doomed(t, env) then 0 else multiset(doc)[t]
  {
    if doc != [] {
      PrunedCounts(doc[1..], env);
      assert doc == [doc[0]] + doc[1..];
    }
  }

  /** Pruning keeps the order of the blocks it keeps. */
  lemma {:induction false} PrunedIsFiltered(doc: Xml, env: Env)
    ensures forall b :: b in Pruned(doc, env) ==> !Doomed(b, env)
    ensures |Pruned(doc, env)| <= |doc|
    ensures (forall b :: b in doc ==> !Doomed(b, env)) ==> Pruned(doc, env) == doc
  {
    if doc != [] {
      PrunedIsFiltered(doc[1..], env);
      assert doc == [doc[0]] + doc[1..];
    }
  }

  /** Pruning twice removes nothing more. */
  lemma PrunedIdempotent(doc: Xml, env: Env)
    ensures Pruned(Pruned(doc, env), env) == Pruned(doc, env)
  {
    PrunedIsFiltered(doc, env);
    PrunedIsFiltered(Pruned(doc, env), env);
  }

  /** The import list names each loaded dataset some undefined accessor refers to, exactly once. */
  lemma {:induction false} ImportsOfSpec(doc: Xml, env: Env)
    ensures forall i, j :: 0 <= i < j < |ImportsOf(doc, env)| ==> ImportsOf(doc, env)[i] != ImportsOf(doc, env)[j]
    ensures forall n :: n in ImportsOf(doc, env) <==>
      exists k :: 0 <= k < |doc| && Importable(doc[k], env) && DatasetName(doc[k]) == n
  {
    if doc != [] {
      var init := doc[..|doc| - 1];
      ImportsOfSpec(init, env);
      forall n ensures n in ImportsOf(doc, env) <==>
        exists k :: 0 <= k < |doc| && Importable(doc[k], env) && DatasetName(doc[k]) == n
      {
        if n in ImportsOf(doc, env) && n in ImportsOf(init, env) {
          var k :| 0 <= k < |init| && Importable(init[k], env) && DatasetName(init[k]) == n;
          assert doc[k] == init[k];
        }
        if k :| 0 <= k < |doc| && Importable(doc[k], env) && DatasetName(doc[k]) == n {
          if k < |init| {
            assert init[k] == doc[k];
          }
        }
      }
    }
  }

  /** The document without the blocks whose type is one of `types` (`find(...).remove()`). */
  function Without(doc: Xml, types: seq<string>): (kept: Xml)
    ensures forall b :: b in kept <==> b in doc && b !in types
  {
    if doc == [] then []
    else (if doc[0] in types then [] else [doc[0]]) + Without(doc[1..], types)
  }

  /** Removing no type keeps the document. */
  lemma WithoutNothing(doc: Xml)
    ensures Without(doc, []) == doc
  {
  }

  /** Removing one more type from a document already rid of others. */
  lemma {:induction false} WithoutMore(doc: Xml, types: seq<string>, t: string)
    ensures Without(Without(doc, types), [t]) == Without(doc, types + [t])
  {
    if doc != [] {
      WithoutMore(doc[1..], types, t);
      var rest := Without(doc[1..], types);
      if doc[0] in types {
        assert Without(doc, types) == rest;
      } else {
        assert Without(doc, types) == [doc[0]] + rest;
        assert ([doc[0]] + rest)[1..] == rest;
      }
    }
  }

  /** Removing the collected types is pruning. */
  lemma {:induction false} WithoutIsPruned(doc: Xml, types: seq<string>, env: Env)
    requires forall b :: b in doc ==> (b in types <==> Doomed(b, env))
    ensures Without(doc, types) == Pruned(doc, env)
  {
    if doc != [] {
      assert doc[0] in doc;
      WithoutIsPruned(doc[1..], types, env);
    }
  }

  /**
   * `pruneAndLoad`'s two passes: the `each` loop that fills `toRemove` and
   * `toImport`, then the removal of every block of each collected type.
   */
  method Prune(doc: Xml, env: Env) returns (pruned: Xml, imports: seq<string>)
    ensures pruned == Pruned(doc, env)
    ensures imports == ImportsOf(doc, env)
  {
    var toRemove;
    toRemove, imports := Collect(doc, env);
    pruned := RemoveAll(doc, toRemove);
    WithoutIsPruned(doc, toRemove, env);
  }

  /** The first pass: the doomed types and, in first-mention order, the datasets to import. */
  method Collect(doc: Xml, env: Env) returns (toRemove: seq<string>, imports: seq<string>)
    ensures imports == ImportsOf(doc, env)
    ensures forall b :: b in toRemove <==> b in doc && Doomed(b, env)
  {
    toRemove := [];
    var toImport: set<string> := {};
    imports := [];
    for i := 0 to |doc|
      invariant imports == ImportsOf(doc[..i], env)
      invariant forall n :: n in toImport <==> n in imports
      invariant forall b :: b in toRemove <==> b in doc[..i] && Doomed(b, env)
    {
      var t := doc[i];
      assert doc[..i + 1][..i] == doc[..i];
      assert doc[..i + 1] == doc[..i] + [t];
      if IsGetType(t) && t !in env.defined {
        var datasetName := DatasetName(t);
        if datasetName in env.loaded {
          if datasetName !in toImport {
            imports := imports + [datasetName];
          }
          toImport := toImport + {datasetName};
        } else {
          toRemove := toRemove + [t];
        }
      }
    }
    assert doc[..|doc|] == doc;
  }

  /** The second pass: every block of each collected type is removed. */
  method RemoveAll(doc: Xml, types: seq<string>) returns (pruned: Xml)
    ensures pruned == Without(doc, types)
  {
    pruned := doc;
    WithoutNothing(doc);
    for k := 0 to |types|
      invariant pruned == Without(doc, types[..k])
    {
      WithoutMore(doc, types[..k], types[k]);
      assert types[..k + 1] == types[..k] + [types[k]];
      pruned := Without(pruned, [types[k]]);
    }
    assert types[..|types|] == types;
  }

  // ---------------------------------------------------------------------------
  // Applying a document (src/storage.js:225-239).
  // ---------------------------------------------------------------------------

  /** What importing and applying leaves behind, in order. */
  datatype Event = Imported(dataset: string) | FlyoutRefreshed | Applied(doc: Xml)

  /** One `Imported` event per name, in order. */
  function ImportEvents(names: seq<string>): (events: seq<Event>)
    ensures |events| == |names|
    ensures forall k :: 0 <= k < |names| ==> events[k] == Imported(names[k])
  {
    if names == [] then []
    else ImportEvents(names[..|names| - 1]) + [Imported(names[|names| - 1])]
  }

  /** The events of one `importAndLoad`: the imports, then the flyout refresh if any, then the document. */
  function LoadEvents(names: seq<string>, doc: Xml): seq<Event> {
    ImportEvents(names) + (if names == [] then [] else [FlyoutRefreshed]) + [Applied(doc)]
  }

  /**
   * The document is applied exactly once, as the last event, after every
   * import; the flyout is refreshed exactly when something was imported.
   */
  lemma LoadEventsOrder(names: seq<string>, doc: Xml)
    ensures var ev := LoadEvents(names, doc);
      ev[|ev| - 1] == Applied(doc) &&
      (forall k :: 0 <= k < |ev| - 1 ==> !ev[k].Applied?) &&
      (forall k :: 0 <= k < |names| ==> ev[k] == Imported(names[k])) &&
      (FlyoutRefreshed in ev <==> names != [])
  {
    var ev := LoadEvents(names, doc);
    forall k | 0 <= k < |ev| - 1 ensures !ev[k].Applied? {
      if k < |names| {
        assert ev[k] == Imported(names[k]);
      }
    }
    if FlyoutRefreshed in ev && names == [] {
      assert ev == [Applied(doc)];
    }
  }

  // ---------------------------------------------------------------------------
  // The local backup key (src/storage.js:25, 46).
  // ---------------------------------------------------------------------------

  /** `href.split('#')[0]`: the URL without its fragment. */
  function UrlKey(href: string): (url: string)
    ensures url <= href
    ensures '#' !in url
    ensures url == href || href[|url|] == '#'
  {
    if href == [] then []
    else if href[0] == '#' then []
    else [href[0]] + UrlKey(href[1..])
  }

  /** Whatever the fragment, the backup key is the URL before it. */
  lemma {:induction false} UrlKeyIgnoresFragment(base: string, fragment: string)
    requires '#' !in base
    ensures UrlKey(base + "#" + fragment) == base
    ensures UrlKey(base) == base
  {
    if base != [] {
      assert (base + "#" + fragment)[1..] == base[1..] + "#" + fragment;
      UrlKeyIgnoresFragment(base[1..], fragment);
    } else {
      assert (base + "#" + fragment)[0] == '#';
    }
  }

  // ---------------------------------------------------------------------------
  // The session.
  // ---------------------------------------------------------------------------

  /** `response.project` on a load: the stored project record, as far as the client reads it. */
  datatype ProjectInfo = ProjectInfo(projectName: string)

  /** The bodies `$.post("/storage", ...)` sends. */
  datatype Request =
    | SaveRequest(projectName: string, projectKey: string, xml: Xml)
    | LoadRequest(projectKey: string)

  datatype SaveResponse = SaveResponse(status: int, key: string)

  datatype LoadResponse = LoadResponse(
    status: int,
    xml: XmlText,
    project: ProjectInfo,
    projectKey: string,
    canRename: bool,
    canModify: bool)

  /** The dialogs the session raises. */
  datatype Alert =
    | ErrorAlert(title: string, status: int)
    | SuccessAlert(message: string)
    | XmlErrorAlert(raw: string)

  const SaveFailed: string := "Project Save Failed!"
  const SaveSucceeded: string := "Your project was saved successfully!"
  const LoadFailed: string := "Failed to load project"
  const AllSaved: string := "All changes saved!"
  const Unsaved: string := "You have unsaved changes"

  /** The page elements the session writes: status bar, name label, the new-project input and four buttons. */
  datatype Page = Page(
    statusBar: string,
    projectName: string,
    newProjInput: bool,
    renameButton: bool,
    saveButton: bool,
    cloneButton: bool,
    downloadButton: bool)

  class Session {
    var anonymous: bool
    var canModify: bool
    var projectKey: Option<string>
    var project: Option<ProjectInfo>
    /** `window.location.hash`, without the `#`. */
    var hash: string
    var page: Page
    /** The main workspace. */
    var workspace: Xml
    /** The armed change listeners of `monitorChanges_`, each with its baseline. */
    var listeners: map<nat, Xml>
    var nextListener: nat
    var outbox: seq<Request>
    var alerts: seq<Alert>
    var log: seq<Event>
    /** `'localStorage' in window`. */
    var hasLocalStorage: bool
    var localStorage: map<string, XmlText>

    /** Listener identities are never reused. */
    predicate Valid()
      reads this
    {
      forall id :: id in listeners ==> id < nextListener
    }

    constructor (anonymous: bool, hash: string, page: Page, hasLocalStorage: bool, localStorage: map<string, XmlText>)
      ensures Valid()
      ensures this.anonymous == anonymous && !canModify && projectKey.None? && project.None?
      ensures this.hash == hash && this.page == page && workspace == [] && listeners == map[]
      ensures outbox == [] && alerts == [] && log == []
      ensures this.hasLocalStorage == hasLocalStorage && this.localStorage == localStorage
    {
      this.anonymous := anonymous;
      canModify := false;
      projectKey := None;
      project := None;
      this.hash := hash;
      this.page := page;
      workspace := [];
      listeners := map[];
      nextListener := 0;
      outbox := [];
      alerts := [];
      log := [];
      this.hasLocalStorage := hasLocalStorage;
      this.localStorage := localStorage;
    }

    /** `save` (src/storage.js:58-75): nothing at all when anonymous, otherwise one save request. */
    method Save()
      modifies this`outbox
      ensures anonymous ==> outbox == old(outbox)
      ensures !anonymous ==> outbox == old(outbox) + [SaveRequest(page.projectName, projectKey.GetOr(""), workspace)]
    {
      if anonymous {
        return;
      }
      outbox := outbox + [SaveRequest(page.projectName, projectKey.GetOr(""), workspace)];
    }

    /**
     * The `done` callback of `save` (src/storage.js:76-100); `showAlert` is
     * the flag the originating call was given.
     */
    method SaveDone(response: SaveResponse, showAlert: bool)
      requires Valid()
      modifies this`projectKey, this`hash, this`alerts, this`page, this`canModify, this`listeners, this`nextListener
      ensures Valid()
      ensures response.status != 200 ==>
        alerts == old(alerts) + [ErrorAlert(SaveFailed, response.status)] &&
        projectKey == old(projectKey) && hash == old(hash) && canModify == old(canModify) &&
        page == old(page) && listeners == old(listeners) && nextListener == old(nextListener)
      ensures response.status == 200 ==>
        projectKey == Some(response.key) && hash == response.key &&
        alerts == old(alerts) + (if showAlert then [SuccessAlert(SaveSucceeded)] else []) &&
        page == old(page).(statusBar := AllSaved, newProjInput := false) &&
        canModify == (old(canModify) || old(page.newProjInput)) &&
        (anonymous ==> listeners == old(listeners) && nextListener == old(nextListener)) &&
        (!anonymous ==> listeners == old(listeners)[old(nextListener) := workspace] && nextListener == old(nextListener) + 1)
    {
      if response.status != 200 {
        alerts := alerts + [ErrorAlert(SaveFailed, response.status)];
        return;
      }
      projectKey := Some(response.key);
      hash := response.key;
      if showAlert {
        alerts := alerts + [SuccessAlert(SaveSucceeded)];
      }
      page := page.(statusBar := AllSaved);
      if page.newProjInput {
        page := page.(newProjInput := false);
        canModify := true;
      }
      MonitorChanges();
    }

    /** `retrieveXml` (src/storage.js:108-112): one load request for `key`. */
    method RetrieveXml(key: string)
      modifies this`outbox
      ensures outbox == old(outbox) + [LoadRequest(key)]
    {
      outbox := outbox + [LoadRequest(key)];
    }

    /** The `done` callback of `retrieveXml` (src/storage.js:113-140). */
    method RetrieveDone(response: LoadResponse, env: Env)
      requires Valid()
      modifies this`alerts, this`hash, this`workspace, this`log, this`listeners, this`nextListener, this`page
      modifies this`projectKey, this`project, this`canModify
      ensures Valid()
      ensures response.status != 200 ==>
        alerts == old(alerts) + [ErrorAlert(LoadFailed, response.status)] && hash == "" &&
        workspace == old(workspace) && log == old(log) && listeners == old(listeners) &&
        page == old(page) && projectKey == old(projectKey) && project == old(project) && canModify == old(canModify)
      ensures response.status == 200 ==>
        hash == old(hash) &&
        alerts == old(alerts) + (if response.xml.Malformed? then [XmlErrorAlert(response.xml.raw)] else []) &&
        Granted(response, old(page), old(projectKey), old(project), old(canModify), page, projectKey, project, canModify)
      ensures response.status == 200 && response.xml.Text? ==>
        workspace == Pruned(response.xml.doc, env) &&
        log == old(log) + LoadEvents(ImportsOf(response.xml.doc, env), Pruned(response.xml.doc, env))
      ensures response.status == 200 && response.xml.Malformed? ==>
        workspace == old(workspace) && log == old(log)
      ensures response.status == 200 && !anonymous ==>
        listeners == old(listeners)[old(nextListener) := workspace] && nextListener == old(nextListener) + 1
      ensures response.status != 200 || anonymous ==> listeners == old(listeners) && nextListener == old(nextListener)
    {
      if response.status != 200 {
        alerts := alerts + [ErrorAlert(LoadFailed, response.status)];
        hash := "";
        return;
      }
      LoadXml(response.xml, env);
      MonitorChanges();
      ApplyPermissions(response);
    }

    /**
     * The page and permissions after a successful load, from those before it:
     * the name label shows the project's name and the rename button stays only
     * if the server allows renaming. A modifiable project becomes the session's
     * project. Otherwise a signed-in session loses `canModify` and may only
     * clone, and an anonymous session keeps everything else.
     */
    ghost predicate Granted(response: LoadResponse, page0: Page, key0: Option<string>, project0: Option<ProjectInfo>,
                            canModify0: bool, page1: Page, key1: Option<string>, project1: Option<ProjectInfo>, canModify1: bool)
      reads this
    {
      var labelled := page0.(projectName := response.project.projectName,
                             renameButton := page0.renameButton && response.canRename);
      if response.canModify then
        page1 == labelled && key1 == Some(response.projectKey) && project1 == Some(response.project) && canModify1
      else if !anonymous then
        page1 == labelled.(saveButton := false, cloneButton := true, downloadButton := false) &&
        key1 == key0 && project1 == project0 && !canModify1
      else
        page1 == labelled && key1 == key0 && project1 == project0 && canModify1 == canModify0
    }

    /** The end of the `done` callback of `retrieveXml` (src/storage.js:124-139): the name label and the server's verdict on renaming and modifying. */
    method ApplyPermissions(response: LoadResponse)
      modifies this`page, this`projectKey, this`project, this`canModify
      ensures Granted(response, old(page), old(projectKey), old(project), old(canModify), page, projectKey, project, canModify)
    {
      page := page.(projectName := response.project.projectName);
      if !response.canRename {
        page := page.(renameButton := false);
      }
      if response.canModify {
        projectKey := Some(response.projectKey);
        project := Some(response.project);
        canModify := true;
      } else if !anonymous {
        canModify := false;
        page := page.(saveButton := false, cloneButton := true, downloadButton := false);
      }
    }

    /** `monitorChanges_` (src/storage.js:151-157): arm a fresh listener whose baseline is the workspace now. */
    method MonitorChanges()
      requires Valid()
      modifies this`listeners, this`nextListener
      ensures Valid()
      ensures anonymous ==> listeners == old(listeners) && nextListener == old(nextListener)
      ensures !anonymous ==>
        old(nextListener) !in old(listeners) &&
        listeners == old(listeners)[old(nextListener) := workspace] && nextListener == old(nextListener) + 1
    {
      if anonymous {
        return;
      }
      listeners := listeners[nextListener := workspace];
      nextListener := nextListener + 1;
    }

    /**
     * A workspace change event delivered to listener `id` (src/storage.js:158-168):
     * an unchanged document keeps it armed; the first differing one marks the
     * project unsaved, disarms it, and saves when the session may modify.
     */
    method Change(id: nat)
      requires id in listeners
      modifies this`listeners, this`page, this`outbox
      ensures workspace == old(listeners)[id] ==>
        listeners == old(listeners) && page == old(page) && outbox == old(outbox)
      ensures workspace != old(listeners)[id] ==>
        listeners == old(listeners) - {id} && id !in listeners &&
        page == old(page).(statusBar := Unsaved) &&
        outbox == old(outbox) + (if canModify && !anonymous then [SaveRequest(page.projectName, projectKey.GetOr(""), workspace)] else [])
    {
      if listeners[id] != workspace {
        page := page.(statusBar := Unsaved);
        listeners := listeners - {id};
        if canModify {
          Save();
        }
      }
    }

    /** `loadXml_` (src/storage.js:177-187): reject unparsable text, otherwise clear and load. */
    method LoadXml(text: XmlText, env: Env)
      modifies this`alerts, this`workspace, this`log
      ensures text.Malformed? ==>
        alerts == old(alerts) + [XmlErrorAlert(text.raw)] && workspace == old(workspace) && log == old(log)
      ensures text.Text? ==>
        alerts == old(alerts) && workspace == Pruned(text.doc, env) &&
        log == old(log) + LoadEvents(ImportsOf(text.doc, env), Pruned(text.doc, env))
    {
      if text.Malformed? {
        alerts := alerts + [XmlErrorAlert(text.raw)];
        return;
      }
      workspace := [];
      PruneAndLoad(text.doc, env);
    }

    /** `pruneAndLoad` (src/storage.js:203-222). */
    method PruneAndLoad(doc: Xml, env: Env)
      modifies this`workspace, this`log
      ensures workspace == old(workspace) + Pruned(doc, env)
      ensures log == old(log) + LoadEvents(ImportsOf(doc, env), Pruned(doc, env))
    {
      var pruned, imports := Prune(doc, env);
      ImportAndLoad(imports, pruned);
    }

    /**
     * `importAndLoad` (src/storage.js:225-242): import each dataset in turn;
     * after the last one, refresh the flyout and apply the document.
     */
    method ImportAndLoad(datasetNames: seq<string>, doc: Xml)
      modifies this`workspace, this`log
      ensures workspace == old(workspace) + doc
      ensures log == old(log) + LoadEvents(datasetNames, doc)
    {
      if |datasetNames| == 0 {
        workspace := workspace + doc;
        log := log + [Applied(doc)];
        return;
      }
      for i := 0 to |datasetNames|
        invariant log == old(log) + ImportEvents(datasetNames[..i])
        invariant workspace == old(workspace)
      {
        assert datasetNames[..i + 1][..i] == datasetNames[..i];
        log := log + [Imported(datasetNames[i])];
      }
      assert datasetNames[..|datasetNames|] == datasetNames;
      log := log + [FlyoutRefreshed];
      workspace := workspace + doc;
      log := log + [Applied(doc)];
    }

    /** `backupBlocks_` (src/storage.js:21-28): store the workspace under the URL without its fragment. */
    method BackupBlocks(href: string)
      modifies this`localStorage
      ensures hasLocalStorage ==> localStorage == old(localStorage)[UrlKey(href) := Text(workspace)]
      ensures !hasLocalStorage ==> localStorage == old(localStorage)
    {
      if hasLocalStorage {
        localStorage := localStorage[UrlKey(href) := Text(workspace)];
      }
    }

    /**
     * `restoreBlocks` (src/storage.js:45-52): when a backup exists under the
     * URL without its fragment, prune and load it into the workspace. A
     * backup `textToDom` rejects throws before anything is loaded.
     */
    method RestoreBlocks(href: string, env: Env)
      modifies this`workspace, this`log
      ensures var url := UrlKey(href);
        if hasLocalStorage && url in localStorage && localStorage[url].Text? then
          workspace == old(workspace) + Pruned(localStorage[url].doc, env) &&
          log == old(log) + LoadEvents(ImportsOf(localStorage[url].doc, env), Pruned(localStorage[url].doc, env))
        else workspace == old(workspace) && log == old(log)
    {
      var url := UrlKey(href);
      if hasLocalStorage && url in localStorage {
        var text := localStorage[url];
        if text.Text? {
          PruneAndLoad(text.doc, env);
        }
      }
    }
  }
}

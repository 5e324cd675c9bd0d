/**
 * The editor shell (src/VSCodeLayout.jsx): the file list, the active tab and
 * the editor text, kept over the browser file handler. The answers of the
 * browser's `prompt` and `confirm` dialogs are parameters.
 */
module Layout {
  import opened Wrappers
  import opened Text
  import opened FileStore

  /** The `language` given to the editor for the active tab (line 101). */
  function EditorLanguage(activeTab: string): (lang: string)
    ensures lang in {"typescript", "javascript", "html"}
  {
    if EndsWith(activeTab, ".ts") then "typescript"
    else if EndsWith(activeTab, ".js") then "javascript"
    else "html"
  }

  /** Only the exact suffixes `.ts` and `.js` are recognised: `.tsx`, `.jsx` and `.TS` get `html`. */
  lemma EditorLanguageSuffixes(stem: string)
    ensures EditorLanguage(stem + ".ts") == "typescript"
    ensures EditorLanguage(stem + ".js") == "javascript"
    ensures EditorLanguage(stem + ".tsx") == "html"
    ensures EditorLanguage(stem + ".jsx") == "html"
    ensures EditorLanguage(stem + ".TS") == "html"
  {
    assert (stem + ".ts")[|stem + ".ts"| - 3..] == ".ts";
    assert (stem + ".js")[|stem + ".js"| - 3..] == ".js";
    assert (stem + ".tsx")[|stem + ".tsx"| - 3..] == "tsx";
    assert (stem + ".jsx")[|stem + ".jsx"| - 3..] == "jsx";
    assert (stem + ".TS")[|stem + ".TS"| - 3..] == ".TS";
  }

  class VSCodeLayout {
    /** The `FileHandler` the component imports. */
    const store: FileHandler
    var files: seq<string>
    var activeTab: string
    var code: string

    /** `files` lists each stored file exactly once. */
    ghost predicate Valid()
      reads this, store
    {
      NoDuplicates(files) && forall n :: n in files <==> Key(n) in store.storage
    }

    /** The initial state: the listing, its first file as the active tab, and that file's text. */
    constructor (store: FileHandler)
      ensures this.store == store && Valid()
      ensures activeTab == (if files == [] then "" else files[0])
      ensures code == (if activeTab != "" then Load(store.storage, activeTab) else "")
    {
      var listed := store.ListFiles();
      var tab := if listed == [] then "" else listed[0];
      var text := "";
      if tab != "" {
        text := store.LoadFile(tab);
      }
      this.store := store;
      files := listed;
      activeTab := tab;
      code := text;
    }

    /** `openFile(name)` */
    method OpenFile(name: string)
      requires Valid()
      modifies this
      ensures Valid()
      ensures activeTab == name && code == Load(store.storage, name)
      ensures files == old(files)
    {
      activeTab := name;
      code := store.LoadFile(name);
    }

    /** The editor's `onChange`, which is `setCode`. */
    method Edit(text: string)
      requires Valid()
      modifies this
      ensures Valid()
      ensures code == text && activeTab == old(activeTab) && files == old(files)
    {
      code := text;
    }

    /** `saveFile()`: store the editor text under the active tab, if there is one, and refresh the list. */
    method SaveFile()
      requires Valid()
      modifies this, store
      ensures Valid()
      ensures activeTab == old(activeTab) && code == old(code)
      ensures old(activeTab) == "" ==> store.storage == old(store.storage) && files == old(files)
      ensures old(activeTab) != "" ==> store.storage == old(store.storage)[Key(activeTab) := code]
      ensures forall n :: n in files <==> n in old(files) || (n == activeTab && activeTab != "")
    {
      if activeTab != "" {
        store.SaveFile(activeTab, code);
        files := store.ListFiles();
        forall n ensures n in files <==> n in old(files) || n == activeTab {
          KeyInjective(n, activeTab);
        }
      }
    }

    /**
     * `newFile()` with `entered` the answer to the name prompt (`None` when
     * cancelled): an empty, cancelled or already listed name changes nothing;
     * otherwise an empty file is stored under it and opened.
     */
    method NewFile(entered: Option<string>)
      requires Valid()
      modifies this, store
      ensures Valid()
      ensures entered.None? || entered.value == "" || entered.value in old(files) ==>
        unchanged(this) && unchanged(store)
      ensures entered.Some? && entered.value != "" && entered.value !in old(files) ==>
        && store.storage == old(store.storage)[Key(entered.value) := ""]
        && activeTab == entered.value && code == ""
        && (forall n :: n in files <==> n in old(files) || n == entered.value)
    {
      if entered.Some? && entered.value != "" && entered.value !in files {
        var name := entered.value;
        store.SaveFile(name, "");
        files := store.ListFiles();
        activeTab := name;
        code := "";
        forall n ensures n in files <==> n in old(files) || n == name {
          KeyInjective(n, name);
        }
      }
    }

    /**
     * `deleteFile(name)` with `confirmed` the answer to the confirmation
     * dialog. Deleting the active file opens the first remaining one, or
     * none; deleting another file leaves the tab and the text alone.
     */
    method DeleteFile(name: string, confirmed: bool)
      requires Valid()
      modifies this, store
      ensures Valid()
      ensures !confirmed ==> unchanged(this) && unchanged(store)
      ensures confirmed ==> store.storage == old(store.storage) - {Key(name)}
      ensures confirmed ==> forall n :: n in files <==> n in old(files) && n != name
      ensures confirmed && old(activeTab) == name ==>
        && activeTab == (if files == [] then "" else files[0])
        && code == (if activeTab != "" then Load(store.storage, activeTab) else "")
      ensures confirmed && old(activeTab) != name ==> activeTab == old(activeTab) && code == old(code)
    {
      if confirmed {
        store.DeleteFile(name);
        var updated := store.ListFiles();
        files := updated;
        if activeTab == name {
          activeTab := if updated == [] then "" else updated[0];
          if updated != [] && updated[0] != "" {
            code := store.LoadFile(updated[0]);
          } else {
            code := "";
          }
        }
        forall n ensures n in files <==> n in old(files) && n != name {
          KeyInjective(n, name);
        }
      }
    }
  }
}

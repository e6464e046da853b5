/**
  The static alias table from brace-notation names to the browser
  driver's key names (case-sensitive). `KEY_MAP[name] || name` in the
  scripts becomes `Resolve`: every value in the table is a non-empty, hence
  truthy, string, so the fallback applies exactly to names outside the table.
 */
module KeyMap {

  /** The names the table maps to themselves, in small groups. */
  const EditingKeys: set<string> := {"Enter", "Tab", "Escape", "Backspace", "Delete", "Insert"}
  const PagingKeys: set<string> := {"Home", "End", "PageUp", "PageDown"}
  const ArrowKeys: set<string> := {"ArrowUp", "ArrowDown", "ArrowLeft", "ArrowRight"}
  const LowFunctionKeys: set<string> := {"F1", "F2", "F3", "F4", "F5", "F6"}
  const HighFunctionKeys: set<string> := {"F7", "F8", "F9", "F10", "F11", "F12"}
  const ModifierKeys: set<string> := {"Control", "Alt", "Shift", "Meta"}
  const LockKeys: set<string> := {"CapsLock", "NumLock", "PrintScreen", "ScrollLock", "Pause"}
  const KeyNames: set<string> :=
    EditingKeys + PagingKeys + ArrowKeys + LowFunctionKeys + HighFunctionKeys + ModifierKeys + LockKeys

  /** The names the table maps to a different name. */
  const Renames: map<string, string> := map[
    "Return" := "Enter", "Esc" := "Escape",
    "Up" := "ArrowUp", "Down" := "ArrowDown", "Left" := "ArrowLeft", "Right" := "ArrowRight",
    "Space" := " ", "Ctrl" := "Control", "Win" := "Meta"
  ]

  /** The whole table: 44 entries, the self-mapped names plus the renames. */
  const Aliases: map<string, string> := (map n | n in KeyNames :: n) + Renames

  /** A canonical key name: one the table maps to itself, or the space character. */
  predicate IsCanonical(v: string) {
    v == " " || (v in Aliases && Aliases[v] == v)
  }

  /** A name that starts with a capital letter. */
  predicate Capitalised(n: string) {
    |n| > 0 && 'A' <= n[0] <= 'Z'
  }

  /** A set of capitalised names that are free of `+` and not renamed. */
  predicate PlainNames(names: set<string>) {
    forall n :: n in names ==> Capitalised(n) && '+' !in n && n !in Renames
  }

  lemma EditingKeysPlain()
    ensures PlainNames(EditingKeys)
  {
  }

  lemma PagingKeysPlain()
    ensures PlainNames(PagingKeys)
  {
  }

  lemma ArrowKeysPlain()
    ensures PlainNames(ArrowKeys)
  {
  }

  lemma LowFunctionKeysPlain()
    ensures PlainNames(LowFunctionKeys)
  {
  }

  lemma HighFunctionKeysPlain()
    ensures PlainNames(HighFunctionKeys)
  {
  }

  lemma ModifierKeysPlain()
    ensures PlainNames(ModifierKeys)
  {
  }

  lemma LockKeysPlain()
    ensures PlainNames(LockKeys)
  {
  }

  lemma KeyNamesPlain()
    ensures PlainNames(KeyNames)
  {
    EditingKeysPlain();
    PagingKeysPlain();
    ArrowKeysPlain();
    LowFunctionKeysPlain();
    HighFunctionKeysPlain();
    ModifierKeysPlain();
    LockKeysPlain();
  }

  lemma RenamesCapitalised()
    ensures forall n :: n in Renames ==> Capitalised(n)
  {
  }

  lemma RenameTargets()
    ensures forall n :: n in Renames ==> Renames[n] == " " || Renames[n] in KeyNames
  {
  }

  /**
    The table is case-sensitive and every name in it is capitalised: a name
    that does not start with a capital letter, a single space or a
    lower-case `enter` say, is not in it and passes through unchanged.
   */
  lemma UncapitalisedPassesThrough(name: string)
    requires !Capitalised(name)
    ensures name !in Aliases
    ensures Resolve(name) == name
  {
    KeyNamesPlain();
    RenamesCapitalised();
  }

  /** A name that is neither self-mapped nor renamed is not in the table and passes through. */
  lemma UnlistedPassesThrough(name: string)
    requires name !in KeyNames && name !in Renames
    ensures name !in Aliases
    ensures Resolve(name) == name
  {
  }

  lemma SpaceIsNoName()
    ensures " " !in Aliases
  {
    UncapitalisedPassesThrough(" ");
  }

  /** A name the table maps to itself is in the table and maps to itself. */
  lemma SelfMapped(n: string)
    requires n in KeyNames
    ensures n in Aliases && Aliases[n] == n
    ensures Capitalised(n) && '+' !in n
  {
    KeyNamesPlain();
  }

  /** Every alias leads to a non-empty canonical name that contains no `+`. */
  lemma AliasTargetsCanonical()
    ensures forall name :: name in Aliases ==>
      && |Aliases[name]| > 0
      && '+' !in Aliases[name]
      && IsCanonical(Aliases[name])
  {
    forall name | name in Aliases
      ensures |Aliases[name]| > 0 && '+' !in Aliases[name] && IsCanonical(Aliases[name])
    {
      if name in Renames {
        RenameTargets();
        var v := Renames[name];
        assert Aliases[name] == v;
        if v != " " {
          SelfMapped(v);
        }
      } else {
        assert name in KeyNames;
        SelfMapped(name);
      }
    }
  }

  /** `KEY_MAP[name] || name` */
  function Resolve(name: string): (r: string)
    ensures name in Aliases ==> IsCanonical(r) && |r| > 0
    ensures name !in Aliases ==> r == name
  {
    AliasTargetsCanonical();
    if name in Aliases then Aliases[name] else name
  }

  /** Resolving twice is resolving once: canonical names resolve to themselves. */
  lemma ResolveIdempotent(name: string)
    ensures Resolve(Resolve(name)) == Resolve(name)
  {
    SpaceIsNoName();
  }

  /** Resolution keeps a `+`-free name `+`-free, so combo parts stay separable. */
  lemma ResolveKeepsPlusOut(name: string)
    requires '+' !in name
    ensures '+' !in Resolve(name)
  {
    AliasTargetsCanonical();
  }

  /** A renamed name resolves to its new name. */
  lemma ResolveRenamed(name: string)
    requires name in Renames
    ensures Resolve(name) == Renames[name]
  {
  }

  lemma RenamesOfKeys()
    ensures Renames["Esc"] == "Escape" && Renames["Return"] == "Enter" && Renames["Space"] == " "
  {
  }

  lemma RenamesOfModifiers()
    ensures Renames["Ctrl"] == "Control" && Renames["Win"] == "Meta" && Renames["Left"] == "ArrowLeft"
  {
  }

  /** Some common aliases and what they resolve to. */
  lemma CommonAliases()
    ensures Resolve("Esc") == "Escape" && Resolve("Ctrl") == "Control"
    ensures Resolve("Win") == "Meta" && Resolve("Left") == "ArrowLeft"
    ensures Resolve("Return") == "Enter" && Resolve("Space") == " "
  {
    ResolveRenamed("Esc");
    ResolveRenamed("Ctrl");
    ResolveRenamed("Win");
    ResolveRenamed("Left");
    ResolveRenamed("Return");
    ResolveRenamed("Space");
    RenamesOfKeys();
    RenamesOfModifiers();
  }

  /** A name the table maps to itself resolves to itself. */
  lemma ResolveKeyName(name: string)
    requires name in KeyNames
    ensures Resolve(name) == name
  {
    SelfMapped(name);
  }
}

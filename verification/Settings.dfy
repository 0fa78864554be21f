/** Exporting the preference store as text and importing such a text into another store. Byte values
    pass through fixed buffers in both directions; where the code writes past one, the outcome says
    so and nothing is claimed about what follows. */
module Settings {
  import opened Basics
  import opened CStrings
  import opened Decimal
  import opened HexText

  datatype Width = I8 | I16 | I32 | I64 | U8 | U16 | U32 | U64

  /** What the flash store keeps under a key, with its type. */
  datatype Value = Number(width: Width, n: int) | Text(s: string) | Blob(bytes: seq<Byte>)

  type Store = map<string, Value>

  /** An exported document: the absent keys are its null values. */
  type Document = map<string, string>

  const SHOW_SECRETS := "showSecr"
  const LATEST_VERSION := "latest"
  const TOTP_SECRET := "totpsecret"
  const BYPASS_SECRET := "bypassecret"
  const ADMIN_SECRET := "adminsecret"

  /** The import reads a byte value into this many bytes; the export prints one into this many
      characters, terminator included. */
  const IMPORT_BUFFER := 32
  const EXPORT_BUFFER := 255

  /** The key classes of `DebugPreferences`. */
  datatype KeyTable = KeyTable(keys: seq<string>, redacted: seq<string>, bools: seq<string>, bytes: seq<string>,
                               ints: seq<string>, uints: seq<string>, uint64s: seq<string>)

  /** Byte keys are apart from text keys, as in the shipped tables. */
  ghost predicate Apart(t: KeyTable) { forall k :: k in t.bytes ==> k !in t.keys }

  datatype Class = BoolClass | IntClass | UIntClass | UInt64Class | TextClass

  /** The class an import tries first to last. */
  function ClassOf(t: KeyTable, key: string): Class {
    if key in t.bools then BoolClass
    else if key in t.ints then IntClass
    else if key in t.uints then UIntClass
    else if key in t.uint64s then UInt64Class
    else TextClass
  }

  predicate InRange(v: Value) {
    v.Number? ==>
      match v.width
      case I8 => -0x80 <= v.n < 0x80
      case I16 => -0x8000 <= v.n < 0x8000
      case I32 => -0x8000_0000 <= v.n < 0x8000_0000
      case I64 => -0x8000_0000_0000_0000 <= v.n < 0x8000_0000_0000_0000
      case U8 => 0 <= v.n < 0x100
      case U16 => 0 <= v.n < 0x1_0000
      case U32 => 0 <= v.n < 0x1_0000_0000
      case U64 => 0 <= v.n < 0x1_0000_0000_0000_0000
  }

  function Lookup<V>(m: map<string, V>, key: string): Option<V> {
    if key in m then Some(m[key]) else None
  }

  function Put<V>(m: map<string, V>, key: string, v: Option<V>): map<string, V> {
    if v.Some? then m[key := v.value] else m - {key}
  }

  // ---------------------------------------------------------------- export of one key

  predicate Skipped(t: KeyTable, redacted: bool, key: string) {
    key in {SHOW_SECRETS, LATEST_VERSION, TOTP_SECRET, BYPASS_SECRET, ADMIN_SECRET}
    || (!redacted && key in t.redacted)
  }

  function TextOf(t: KeyTable, key: string, v: Option<Value>): string {
    if v.None? then ""
    else if key in t.bools then (if v.value == Number(U8, 1) then "1" else "0")
    else match v.value
      case Number(_, n) => PrintInt(n)
      case Text(s) => s
      case Blob(_) => ""
  }

  /** What the export writes under a key, if anything. */
  function Exported(t: KeyTable, redacted: bool, key: string, v: Option<Value>): Option<string> {
    if key in t.keys then (if Skipped(t, redacted, key) then None else Some(TextOf(t, key, v)))
    else if key in t.bytes && IsSetBlob(v) then Some(Encode(v.value.bytes))
    else None
  }

  predicate IsSetBlob(v: Option<Value>) { v.Some? && v.value.Blob? && v.value.bytes != [] }

  // ---------------------------------------------------------------- import of one key

  /** A JSON string read as an integer: zero if it is none or does not fit. */
  function AsNumber(text: string, width: Width): Value {
    var v := ParseInt(text);
    if v.Some? && InRange(Number(width, v.value)) then Number(width, v.value) else Number(width, 0)
  }

  /** The new value of a text key; an empty text removes it. */
  function Typed(t: KeyTable, key: string, text: string): Option<Value> {
    if text == "" then None
    else match ClassOf(t, key)
      case BoolClass => Some(Number(U8, if text == "1" then 1 else 0))
      case IntClass => Some(AsNumber(text, I32))
      case UIntClass => Some(AsNumber(text, U32))
      case UInt64Class => Some(AsNumber(text, U64))
      case TextClass => Some(Text(text))
  }

  /** What the store holds under a key after an import; `before` is what it held. Byte values of
      length zero are not written. */
  function Imported(t: KeyTable, key: string, text: Option<string>, before: Option<Value>): Option<Value> {
    if text.None? then before
    else if key in t.keys then (if key in {SHOW_SECRETS, LATEST_VERSION} then before else Typed(t, key, text.value))
    else if key in t.bytes && Readable(text.value) && |text.value| > 1 then Some(Blob(Decode(text.value)))
    else before
  }

  // ---------------------------------------------------------------- the round trip of one key

  /** The values an import can produce for a class. */
  predicate Canonical(c: Class, v: Value) {
    match c
    case BoolClass => v == Number(U8, 0) || v == Number(U8, 1)
    case IntClass => v.Number? && v.width == I32
    case UIntClass => v.Number? && v.width == U32
    case UInt64Class => v.Number? && v.width == U64
    case TextClass => v.Text? && v.s != ""
  }

  lemma PrintedNumberReadsBack(width: Width, n: int)
    ensures PrintInt(n) != ""
    ensures InRange(Number(width, n)) ==> AsNumber(PrintInt(n), width) == Number(width, n)
  {
    ParsePrinted(n);
  }

  lemma ImportsAreCanonical(t: KeyTable, key: string, text: string)
    ensures var v := Typed(t, key, text);
            v.Some? ==> Canonical(ClassOf(t, key), v.value) && InRange(v.value)
  {
  }

  /** A text key comes back exactly if its value has the type of the key's class (an empty text has
      not: it is removed); an absent one is removed. */
  lemma TextKeyRoundTrip(t: KeyTable, key: string, v: Option<Value>)
    requires v.Some? ==> InRange(v.value)
    ensures Typed(t, key, TextOf(t, key, v)) == v <==> v.None? || Canonical(ClassOf(t, key), v.value)
  {
    var text := TextOf(t, key, v);
    ImportsAreCanonical(t, key, text);
    if v.Some? && Canonical(ClassOf(t, key), v.value) {
      match ClassOf(t, key) {
        case BoolClass =>
        case IntClass => PrintedNumberReadsBack(I32, v.value.n);
        case UIntClass => PrintedNumberReadsBack(U32, v.value.n);
        case UInt64Class => PrintedNumberReadsBack(U64, v.value.n);
        case TextClass =>
      }
    }
  }

  lemma ByteKeyRoundTrip(t: KeyTable, redacted: bool, key: string, bytes: seq<Byte>, before: Option<Value>)
    requires key in t.bytes && key !in t.keys && bytes != []
    ensures Imported(t, key, Exported(t, redacted, key, Some(Blob(bytes))), before) == Some(Blob(bytes))
    ensures Reading(Exported(t, redacted, key, Some(Blob(bytes))).value, IMPORT_BUFFER)
              == if |bytes| <= IMPORT_BUFFER then Done else Overrun
  {
    DecodeEncoded(bytes);
  }

  // ---------------------------------------------------------------- whole stores

  function Export(t: KeyTable, redacted: bool, store: Store): Document {
    map key | key in t.keys + t.bytes && Exported(t, redacted, key, Lookup(store, key)).Some?
      :: Exported(t, redacted, key, Lookup(store, key)).value
  }

  function Import(t: KeyTable, doc: Document, store: Store): Store {
    map key | key in doc.Keys + store.Keys && Imported(t, key, Lookup(doc, key), Lookup(store, key)).Some?
      :: Imported(t, key, Lookup(doc, key), Lookup(store, key)).value
  }

  lemma ImportAt(t: KeyTable, doc: Document, store: Store, key: string)
    ensures Lookup(Import(t, doc, store), key) == Imported(t, key, Lookup(doc, key), Lookup(store, key))
  {
  }

  lemma ExportAt(t: KeyTable, redacted: bool, store: Store, key: string)
    ensures Lookup(Export(t, redacted, store), key) == Exported(t, redacted, key, Lookup(store, key))
  {
  }

  /** How an import gets through these byte keys of a document: the first that fails ends it. */
  ghost function ReadingOf(keys: seq<string>, doc: Document): Outcome {
    if keys == [] then Done
    else
      var before, key := ReadingOf(keys[..|keys| - 1], doc), keys[|keys| - 1];
      if before.Done? && key in doc then Reading(doc[key], IMPORT_BUFFER) else before
  }

  lemma {:induction false} ReadingIsDone(keys: seq<string>, doc: Document)
    ensures ReadingOf(keys, doc).Done? <==>
              forall k :: k in keys && k in doc ==> Reading(doc[k], IMPORT_BUFFER).Done?
  {
    if keys != [] {
      var before, key := keys[..|keys| - 1], keys[|keys| - 1];
      ReadingIsDone(before, doc);
      assert keys == before + [key];
    }
  }

  /** Exactly which keys an export holds: of the text keys all but five, and without the flag none of the
      redacted ones; of the byte keys those that are set. */
  lemma ExportHoldsExactly(t: KeyTable, redacted: bool, store: Store)
    ensures var doc := Export(t, redacted, store);
            && (forall k | k in t.keys ::
                  k in doc <==> k !in {"showSecr", "latest", "totpsecret", "bypassecret", "adminsecret"}
                                && (redacted || k !in t.redacted))
            && (forall k | k in t.bytes && k !in t.keys ::
                  k in doc <==> k in store && store[k].Blob? && store[k].bytes != [])
            && (forall k | k in doc :: k in t.keys || k in t.bytes)
  {
    forall k ensures Lookup(Export(t, redacted, store), k) == Exported(t, redacted, k, Lookup(store, k)) {
      ExportAt(t, redacted, store, k);
    }
  }

  /** And what it holds under a text key: nothing as an empty text, a switch as one digit, a number in
      decimal, a text as it is. */
  lemma ExportedText(t: KeyTable, redacted: bool, store: Store, k: string)
    requires k in t.keys && k in Export(t, redacted, store)
    ensures var text := Export(t, redacted, store)[k];
            && (k !in store ==> text == "")
            && (k in store && k in t.bools ==> text == if store[k] == Number(U8, 1) then "1" else "0")
            && (k in store && k !in t.bools && store[k].Number? ==> text == PrintInt(store[k].n))
            && (k in store && k !in t.bools && store[k].Text? ==> text == store[k].s)
  {
    ExportAt(t, redacted, store, k);
  }

  /** What an import leaves alone: what the document does not name, what the tables do not, and two keys
      that are never imported. */
  lemma ImportLeavesAlone(t: KeyTable, doc: Document, store: Store, k: string)
    requires k !in doc || (k !in t.keys && k !in t.bytes) || (k in t.keys && k in {"showSecr", "latest"})
    ensures Lookup(Import(t, doc, store), k) == Lookup(store, k)
  {
    ImportAt(t, doc, store, k);
  }

  /** No byte value of the store has more than n bytes. */
  ghost predicate BytesWithin(t: KeyTable, store: Store, n: nat) {
    forall k :: k in t.bytes && IsSetBlob(Lookup(store, k)) ==> |store[k].bytes| <= n
  }

  /** The store after an import, if it gets through all byte values. */
  ghost function TryImport(t: KeyTable, doc: Document, store: Store): Option<Store> {
    if ReadingOf(t.bytes, doc).Done? then Some(Import(t, doc, store)) else None
  }

  /** Importing an export never throws, and stays in bounds exactly if no byte value has more than 32
      bytes. */
  lemma ExportFitsImport(t: KeyTable, redacted: bool, source: Store)
    requires Apart(t)
    ensures ReadingOf(t.bytes, Export(t, redacted, source))
              == if BytesWithin(t, source, IMPORT_BUFFER) then Done else Overrun
  {
    var doc := Export(t, redacted, source);
    forall k | k in t.bytes && k in doc
      ensures IsSetBlob(Lookup(source, k))
      ensures Reading(doc[k], IMPORT_BUFFER) == if |source[k].bytes| <= IMPORT_BUFFER then Done else Overrun
    {
      ExportAt(t, redacted, source, k);
      ByteKeyRoundTrip(t, redacted, k, source[k].bytes, None);
    }
    forall k | k in t.bytes && IsSetBlob(Lookup(source, k)) ensures k in doc {
      ExportAt(t, redacted, source, k);
    }
    ReadingIsDone(t.bytes, doc);
    NeverThrown(t.bytes, doc);
  }

  lemma {:induction false} NeverThrown(keys: seq<string>, doc: Document)
    requires forall k :: k in keys && k in doc ==> !Reading(doc[k], IMPORT_BUFFER).Thrown?
    ensures !ReadingOf(keys, doc).Thrown?
  {
    if keys != [] {
      NeverThrown(keys[..|keys| - 1], doc);
    }
  }

  /** What a key holds after the round trip: on an exported text key the two stores agree exactly if
      the key is absent from the source or holds a value of its class; on a byte key that is set they
      agree; every skipped, redacted or foreign key of the target keeps its value. */
  ghost predicate ComesBack(t: KeyTable, redacted: bool, source: Store, target: Store, after: Store, key: string) {
    if key in t.keys && key !in {"showSecr", "latest", "totpsecret", "bypassecret", "adminsecret"}
       && (redacted || key !in t.redacted) then
      Lookup(after, key) == Lookup(source, key) <==> key !in source || Canonical(ClassOf(t, key), source[key])
    else if key in t.bytes && IsSetBlob(Lookup(source, key)) then
      Lookup(after, key) == Lookup(source, key)
    else Lookup(after, key) == Lookup(target, key)
  }

  /** Importing the export of one store into any other stays in bounds exactly if the source has no
      byte value of more than 32 bytes, and then every key comes back as described. */
  lemma RoundTrip(t: KeyTable, redacted: bool, source: Store, target: Store)
    requires Apart(t) && forall k :: k in source ==> InRange(source[k])
    ensures var after := TryImport(t, Export(t, redacted, source), target);
            && (after.Some? <==> BytesWithin(t, source, IMPORT_BUFFER))
            && (after.Some? ==> forall key :: ComesBack(t, redacted, source, target, after.value, key))
  {
    ExportFitsImport(t, redacted, source);
    forall key ensures ComesBack(t, redacted, source, target, Import(t, Export(t, redacted, source), target), key) {
      KeyComesBack(t, redacted, source, target, key);
    }
  }

  lemma KeyComesBack(t: KeyTable, redacted: bool, source: Store, target: Store, key: string)
    requires Apart(t) && forall k :: k in source ==> InRange(source[k])
    ensures ComesBack(t, redacted, source, target, Import(t, Export(t, redacted, source), target), key)
  {
    ImportAt(t, Export(t, redacted, source), target, key);
    ExportAt(t, redacted, source, key);
    if key in t.keys && !Skipped(t, redacted, key) {
      TextKeyRoundTrip(t, key, Lookup(source, key));
    } else if key in t.bytes && IsSetBlob(Lookup(source, key)) {
      ByteKeyRoundTrip(t, redacted, key, source[key].bytes, Lookup(target, key));
    }
  }

  /** The number of 32-bit entries the first start stores under each access list key. */
  const ACCESS_LISTS := map["aclLckOpn" := 17, "confLckBasAcl" := 16, "confLckAdvAcl" := 26,
                            "confOpnBasAcl" := 14, "confOpnAdvAcl" := 22]

  /** Where it fails: the access lists of 56 to 104 bytes that the first start stores. A store that
      holds one of them cannot be imported from its own export within bounds, although exporting it
      stays in bounds. */
  lemma AccessListsOverrunTheImport(t: KeyTable, redacted: bool, source: Store, key: string)
    requires Apart(t) && key in ACCESS_LISTS && key in t.bytes
    requires key in source && source[key].Blob? && |source[key].bytes| == 4 * ACCESS_LISTS[key]
    ensures ReadingOf(t.bytes, Export(t, redacted, source)) == Overrun
    ensures 2 * |source[key].bytes| < EXPORT_BUFFER
  {
    ExportFitsImport(t, redacted, source);
    assert IsSetBlob(Lookup(source, key)) && |source[key].bytes| > IMPORT_BUFFER;
  }

  /** Any number under a key comes back with the type of the key's class: zero if it does not fit, and
      its decimal text under a key of no number class. */
  lemma NumberComesBack(t: KeyTable, redacted: bool, source: Store, target: Store, key: string, w: Width, n: int)
    requires key in t.keys && !Skipped(t, redacted, key) && Lookup(source, key) == Some(Number(w, n))
    ensures Lookup(Import(t, Export(t, redacted, source), target), key) == Some(
              match ClassOf(t, key)
              case BoolClass => Number(U8, if w == U8 && n == 1 then 1 else 0)
              case IntClass => Number(I32, if InRange(Number(I32, n)) then n else 0)
              case UIntClass => Number(U32, if InRange(Number(U32, n)) then n else 0)
              case UInt64Class => Number(U64, if InRange(Number(U64, n)) then n else 0)
              case TextClass => Text(PrintInt(n)))
  {
    ImportAt(t, Export(t, redacted, source), target, key);
    ExportAt(t, redacted, source, key);
    ParsePrinted(n);
  }

  /** `getUInt` with its default. */
  function GetUInt(store: Store, key: string): int {
    if key in store && store[key].Number? && store[key].width == U32 then store[key].n else 0
  }

  /** A count that is read as an unsigned number is lost by every import that names it under another
      class, whatever the document holds for it: the next start reads zero. */
  lemma ImportedCountReadsZero(t: KeyTable, doc: Document, store: Store, key: string)
    requires key in t.keys && key in doc && key !in {SHOW_SECRETS, LATEST_VERSION} && !ClassOf(t, key).UIntClass?
    ensures GetUInt(Import(t, doc, store), key) == 0
  {
    ImportAt(t, doc, store, key);
    ImportsAreCanonical(t, key, doc[key]);
  }

  /** Export then import is stable: exporting the imported store and importing that into the first
      target gives the imported store again, if it fits at all. */
  lemma SecondRoundTripChangesNothing(t: KeyTable, redacted: bool, source: Store, target: Store)
    requires Apart(t) && forall k :: k in source ==> InRange(source[k])
    ensures var once := Import(t, Export(t, redacted, source), target);
            TryImport(t, Export(t, redacted, once), target)
              == if BytesWithin(t, once, IMPORT_BUFFER) then Some(once) else None
  {
    var once := Import(t, Export(t, redacted, source), target);
    ExportFitsImport(t, redacted, once);
    forall key ensures Lookup(Import(t, Export(t, redacted, once), target), key) == Lookup(once, key) {
      SecondTimeUnchanged(t, redacted, source, target, key);
    }
    SameLookups(Import(t, Export(t, redacted, once), target), once);
  }

  lemma SecondTimeUnchanged(t: KeyTable, redacted: bool, source: Store, target: Store, key: string)
    requires Apart(t) && forall k :: k in source ==> InRange(source[k])
    ensures var once := Import(t, Export(t, redacted, source), target);
            Lookup(Import(t, Export(t, redacted, once), target), key) == Lookup(once, key)
  {
    var once := Import(t, Export(t, redacted, source), target);
    ImportAt(t, Export(t, redacted, source), target, key);
    ExportAt(t, redacted, source, key);
    ImportAt(t, Export(t, redacted, once), target, key);
    ExportAt(t, redacted, once, key);
    if key in t.keys && !Skipped(t, redacted, key) {
      ImportsAreCanonical(t, key, TextOf(t, key, Lookup(source, key)));
      TextKeyRoundTrip(t, key, Lookup(once, key));
    } else if key in t.bytes && IsSetBlob(Lookup(once, key)) {
      ByteKeyRoundTrip(t, redacted, key, once[key].bytes, Lookup(target, key));
    }
  }

  lemma {:induction false} FirstFailureDecides(keys: seq<string>, doc: Document, n: nat)
    requires n <= |keys| && !ReadingOf(keys[..n], doc).Done?
    ensures ReadingOf(keys, doc) == ReadingOf(keys[..n], doc)
  {
    if n < |keys| {
      assert keys[..|keys| - 1][..n] == keys[..n];
      FirstFailureDecides(keys[..|keys| - 1], doc, n);
    } else {
      assert keys[..n] == keys;
    }
  }

  // ---------------------------------------------------------------- the code

  class Preferences {
    var store: Store

    constructor (store: Store)
      ensures this.store == store
    {
      this.store := store;
    }

    method ExportNukiHubJson(t: KeyTable, redacted: bool) returns (inBounds: bool, json: Document)
      requires Apart(t)
      ensures inBounds <==> BytesWithin(t, store, (EXPORT_BUFFER - 1) / 2)
      ensures inBounds ==> json == Export(t, redacted, store)
      ensures inBounds ==> forall k | k in t.keys ::
                k in json <==> k !in {"showSecr", "latest", "totpsecret", "bypassecret", "adminsecret"}
                               && (redacted || k !in t.redacted)
    {
      json := map[];
      for n := 0 to |t.keys|
        invariant forall k :: Lookup(json, k) ==
                    if k in t.keys[..n] then Exported(t, redacted, k, Lookup(store, k)) else None
      {
        var key := t.keys[n];
        assert t.keys[..n + 1] == t.keys[..n] + [key];
        if key == SHOW_SECRETS || key == LATEST_VERSION {
          continue;
        }
        if key == TOTP_SECRET || key == BYPASS_SECRET || key == ADMIN_SECRET {
          continue;
        }
        if !redacted && key in t.redacted {
          continue;
        }
        if key !in store {
          json := json[key := ""];
        } else if key in t.bools {
          json := json[key := if store[key] == Number(U8, 1) then "1" else "0"];
        } else {
          var text := match store[key]
            case Number(_, number) => PrintInt(number)
            case Text(s) => s
            case Blob(_) => "";
          json := json[key := text];
        }
      }
      for n := 0 to |t.bytes|
        invariant forall k :: Lookup(json, k) ==
                    if k in t.keys || k in t.bytes[..n] then Exported(t, redacted, k, Lookup(store, k)) else None
        invariant forall k :: k in t.bytes[..n] && IsSetBlob(Lookup(store, k)) ==>
                    |store[k].bytes| <= (EXPORT_BUFFER - 1) / 2
      {
        var key := t.bytes[n];
        assert t.bytes[..n + 1] == t.bytes[..n] + [key];
        if IsSetBlob(Lookup(store, key)) {
          var printed, text := ExportBytes(store[key].bytes);
          if !printed {
            return false, json;
          }
          json := json[key := text];
        }
      }
      SameLookups(json, Export(t, redacted, store));
      ExportHoldsExactly(t, redacted, store);
      inBounds := true;
    }

    method ImportJson(t: KeyTable, doc: Document) returns (outcome: Outcome)
      requires Apart(t)
      modifies this
      ensures outcome == ReadingOf(t.bytes, doc)
      ensures outcome.Done? ==> Some(store) == TryImport(t, doc, old(store))
    {
      ImportTextKeys(t, doc);
      for n := 0 to |t.bytes|
        invariant forall k :: Lookup(store, k) ==
                    if k in t.keys || k in t.bytes[..n] then Imported(t, k, Lookup(doc, k), old(Lookup(store, k)))
                    else old(Lookup(store, k))
        invariant ReadingOf(t.bytes[..n], doc).Done?
      {
        var key := t.bytes[n];
        assert t.bytes[..n + 1] == t.bytes[..n] + [key];
        assert t.bytes[..n + 1][..n] == t.bytes[..n];
        if key in doc {
          outcome := ImportBytes(key, doc[key]);
          if !outcome.Done? {
            FirstFailureDecides(t.bytes, doc, n + 1);
            return;
          }
        }
      }
      assert t.bytes[..|t.bytes|] == t.bytes;
      SameLookups(store, Import(t, doc, old(store)));
      outcome := Done;
    }

    method ImportTextKeys(t: KeyTable, doc: Document)
      modifies this
      ensures forall k :: Lookup(store, k) ==
                if k in t.keys then Imported(t, k, Lookup(doc, k), old(Lookup(store, k))) else old(Lookup(store, k))
    {
      for n := 0 to |t.keys|
        invariant forall k :: Lookup(store, k) ==
                    if k in t.keys[..n] then Imported(t, k, Lookup(doc, k), old(Lookup(store, k)))
                    else old(Lookup(store, k))
      {
        var key := t.keys[n];
        assert t.keys[..n + 1] == t.keys[..n] + [key];
        if key !in doc || key == SHOW_SECRETS || key == LATEST_VERSION {
          continue;
        }
        ImportKey(t, key, doc[key]);
      }
    }

    method ExportBytes(bytes: seq<Byte>) returns (inBounds: bool, text: string)
      ensures inBounds <==> |bytes| <= (EXPORT_BUFFER - 1) / 2
      ensures inBounds ==> text == Encode(bytes)
    {
      var buffer := new char[EXPORT_BUFFER];
      inBounds := PrintHex(bytes, buffer);
      text := CString(buffer[..]);
    }

    method ImportBytes(key: string, text: string) returns (outcome: Outcome)
      modifies this
      ensures outcome == Reading(text, IMPORT_BUFFER)
      ensures outcome.Done? ==> Readable(text)
      ensures store == if outcome.Done? && |text| > 1 then old(store)[key := Blob(Decode(text))] else old(store)
    {
      var tmpchar := new Byte[IMPORT_BUFFER];
      outcome := ParseHex(text, tmpchar);
      if outcome.Done? && |text| / 2 > 0 {
        store := store[key := Blob(tmpchar[..|text| / 2])];
      }
    }

    method ImportKey(t: KeyTable, key: string, text: string)
      modifies this
      ensures store == Put(old(store), key, Typed(t, key, text)) && store - {key} == old(store) - {key}
      ensures text == "" <==> key !in store
      ensures text == "" || store[key] ==
                var v := ParseInt(text);
                if key in t.bools then Number(U8, if text == "1" then 1 else 0)
                else if key in t.ints then
                  Number(I32, if v.Some? && -0x8000_0000 <= v.value < 0x8000_0000 then v.value else 0)
                else if key in t.uints then
                  Number(U32, if v.Some? && 0 <= v.value < 0x1_0000_0000 then v.value else 0)
                else if key in t.uint64s then
                  Number(U64, if v.Some? && 0 <= v.value < 0x1_0000_0000_0000_0000 then v.value else 0)
                else Text(text)
    {
      if key in t.bools {
        if |text| > 0 {
          store := store[key := Number(U8, if text == "1" then 1 else 0)];
        } else {
          store := store - {key};
        }
      } else if key in t.ints {
        if |text| > 0 {
          store := store[key := AsNumber(text, I32)];
        } else {
          store := store - {key};
        }
      } else if key in t.uints {
        if |text| > 0 {
          store := store[key := AsNumber(text, U32)];
        } else {
          store := store - {key};
        }
      } else if key in t.uint64s {
        if |text| > 0 {
          store := store[key := AsNumber(text, U64)];
        } else {
          store := store - {key};
        }
      } else if |text| > 0 {
        store := store[key := Text(text)];
      } else {
        store := store - {key};
      }
    }
  }

  lemma SameLookups<V>(a: map<string, V>, b: map<string, V>)
    requires forall k :: Lookup(a, k) == Lookup(b, k)
    ensures a == b
  {
    forall k ensures k in a <==> k in b {
      assert Lookup(a, k) == Lookup(b, k);
    }
    forall k | k in a ensures a[k] == b[k] {
      assert Lookup(a, k) == Lookup(b, k);
    }
  }
}

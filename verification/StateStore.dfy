// driver/transport/statestore.go, and the part of reconnect.go that saves through it: what the daemon keeps
// on disk, at every point where it may crash.
module StateStore {
  import opened Bits
  import opened Sizes

  /** SHA-256 of a glyph's pixels, taken to be injective. */
  datatype Hash = Hash(of: seq<byte>)

  datatype KeyState = KeyState(color: nat, emoji: byte, blink: bool)

  /** A key as keys.json holds it. */
  datatype Stored = Stored(state: KeyState, glyph: Option<Hash>)

  datatype KeysFile = Missing | Corrupt | Saved(keys: map<byte, Stored>)

  /** The state directory: keys.json, the glyph files named by hash, and those that an older daemon named by
      key. A write replaces one file whole. */
  datatype Disk = Disk(keysFile: KeysFile, files: map<Hash, seq<byte>>, legacy: map<byte, seq<byte>>)

  function StoredKeys(d: Disk): map<byte, Stored> {
    if d.keysFile.Saved? then d.keysFile.keys else map[]
  }

  ghost predicate Names(d: Disk, h: Hash) {
    exists k :: k in StoredKeys(d) && StoredKeys(d)[k].glyph == Some(h)
  }

  /** keys.json names only glyphs whose file is there. */
  ghost predicate Consistent(d: Disk) {
    forall h :: Names(d, h) ==> h in d.files
  }

  /** Files hold what their names say, only a key that shows a glyph names one, and no whole glyph that is
      named is missing. */
  ghost predicate Sound(d: Disk) {
    && (forall h :: h in d.files ==> d.files[h] == h.of)
    && (forall k :: k in StoredKeys(d) && StoredKeys(d)[k].glyph.Some? ==>
         StoredKeys(d)[k].state.emoji == SENTINEL_EMOJI)
    && (forall h :: Names(d, h) && |h.of| == GLYPH_SIZE ==> h in d.files)
  }

  /** The pixels that `load` finds for a key, if it finds a whole glyph. */
  function PictureOf(d: Disk, k: byte): Option<seq<byte>>
    requires k in StoredKeys(d)
  {
    var s := StoredKeys(d)[k];
    if s.state.emoji != SENTINEL_EMOJI then None
    else if s.glyph.None? then (if k in d.legacy && |d.legacy[k]| == GLYPH_SIZE then Some(d.legacy[k]) else None)
    else
      var h := s.glyph.value;
      if h in d.files && |d.files[h]| == GLYPH_SIZE && Hash(d.files[h]) == h then Some(d.files[h]) else None
  }

  /** What a restart gives back. */
  function LoadedKeys(d: Disk): map<byte, KeyState> {
    map k | k in StoredKeys(d) ::
      var s := StoredKeys(d)[k].state; if s.emoji == SENTINEL_EMOJI && PictureOf(d, k).None? then s.(emoji := 0) else s
  }

  function LoadedGlyphs(d: Disk): map<byte, seq<byte>> {
    map k | k in StoredKeys(d) && PictureOf(d, k).Some? :: PictureOf(d, k).value
  }

  /** `saveKeys`: what goes into keys.json. */
  function Encoded(keys: map<byte, KeyState>, glyphs: map<byte, seq<byte>>): map<byte, Stored> {
    map k | k in keys ::
      Stored(keys[k], if k in glyphs && keys[k].emoji == SENTINEL_EMOJI then Some(Hash(glyphs[k])) else None)
  }

  /** What a daemon with this memory is to remember: a key that has no whole glyph shows none. */
  function KeptKeys(keys: map<byte, KeyState>, glyphs: map<byte, seq<byte>>): map<byte, KeyState> {
    map k | k in keys ::
      if keys[k].emoji == SENTINEL_EMOJI && !(k in glyphs && |glyphs[k]| == GLYPH_SIZE) then keys[k].(emoji := 0)
          else keys[k]
  }

  function KeptGlyphs(glyphs: map<byte, seq<byte>>): map<byte, seq<byte>> {
    map k | k in glyphs && |glyphs[k]| == GLYPH_SIZE :: glyphs[k]
  }

  /** `load` undoes `saveKeys`, for the glyphs whose files are there. */
  lemma LoadUndoesSave(d: Disk, keys: map<byte, KeyState>, glyphs: map<byte, seq<byte>>)
    requires d.keysFile == Saved(Encoded(keys, glyphs)) && d.legacy == map[]
    requires forall h :: h in d.files ==> d.files[h] == h.of
    requires forall k :: k in glyphs ==> k in keys && keys[k].emoji == SENTINEL_EMOJI && Hash(glyphs[k]) in d.files
    ensures LoadedKeys(d) == KeptKeys(keys, glyphs) && LoadedGlyphs(d) == KeptGlyphs(glyphs)
  {
    hide Sound, Consistent, Names;
    assert forall k :: k in keys ==> PictureOf(d, k) == if k in KeptGlyphs(glyphs) then Some(glyphs[k]) else None;
  }

  lemma SavedIsSound(d: Disk, keys: map<byte, KeyState>, glyphs: map<byte, seq<byte>>)
    requires d.keysFile == Saved(Encoded(keys, glyphs))
    requires forall h :: h in d.files ==> d.files[h] == h.of
    requires forall k :: k in glyphs ==> Hash(glyphs[k]) in d.files
    ensures Sound(d) && Consistent(d)
  {
  }

  /** More glyph files change nothing that a restart gives back. */
  lemma MoreFiles(d: Disk, h: Hash)
    requires Sound(d)
    ensures var e := d.(files := d.files[h := h.of]);
            Sound(e) && SameBut(d, e)
  {
    var e := d.(files := d.files[h := h.of]);
    assert StoredKeys(e) == StoredKeys(d);
    assert forall g :: Names(e, g) <==> Names(d, g);
    forall k | k in StoredKeys(d)
      ensures PictureOf(e, k) == PictureOf(d, k)
    {
      if StoredKeys(d)[k].glyph.Some? {
        assert Names(d, StoredKeys(d)[k].glyph.value);
      }
    }
  }

  class Store {
    // Every write goes through.
    const reliable: bool
    var disk: Disk
    var onDisk: set<Hash>
    // A write or a removal failed.
    var failed: bool
    // The directory after every write: what a crash may leave.
    ghost var history: seq<Disk>

    constructor (disk: Disk, reliable: bool)
      ensures this.disk == disk && onDisk == {} && !failed && history == [disk] && this.reliable == reliable
    {
      this.reliable := reliable;
      this.disk, onDisk, failed, history := disk, {}, false, [disk];
    }

    /** Nothing failed, and at every point where a crash may come the directory is sound. */
    ghost predicate Good()
      reads this
    {
      && |history| > 0 && history[|history| - 1] == disk && (reliable ==> !failed)
      && (!failed ==> onDisk <= disk.files.Keys && forall i :: 0 <= i < |history| ==> Sound(history[i]))
    }

    /** `writeFile`: the file is replaced whole, or the write fails. */
    method WriteFile(next: Disk) returns (ok: bool)
      modifies this`disk, this`failed, this`history
      ensures if ok then disk == next && history == old(history) + [next] && failed == old(failed)
              else disk == old(disk) && history == old(history) && failed
      ensures reliable ==> ok
    {
      ok := *;
      ok := ok || reliable;
      if ok {
        disk, history := next, history + [next];
      } else {
        failed := true;
      }
    }

    /** `saveGlyph`: the file is written unless it is there. */
    method SaveGlyph(pixels: seq<byte>)
      requires Good()
      modifies this
      ensures Good() && (old(failed) ==> failed) && (!failed ==> Hash(pixels) in disk.files)
      ensures disk == old(disk) || disk == old(disk).(files := old(disk).files[Hash(pixels) := pixels])
      ensures history == old(history) || history == old(history) + [disk]
      ensures Hash(pixels) in old(onDisk) ==> disk == old(disk) && history == old(history)
    {
      if Hash(pixels) in onDisk {
        return;
      }
      if !failed {
        MoreFiles(disk, Hash(pixels));
      }
      var ok := WriteFile(disk.(files := disk.files[Hash(pixels) := pixels]));
      if ok {
        onDisk := onDisk + {Hash(pixels)};
      }
    }

    /** One key of `load`: it loses a glyph that is missing or not whole. A glyph of an older daemon gets a
        hashed file. */
    method LoadKey(k: byte) returns (state: KeyState, picture: Option<seq<byte>>)
      requires Good() && k in StoredKeys(disk)
      modifies this
      ensures Good() && (old(failed) ==> failed) && picture == PictureOf(old(disk), k)
      ensures state == LoadedKeys(old(disk))[k] && StoredKeys(disk) == StoredKeys(old(disk))
      ensures picture.Some? && !failed ==> Hash(picture.value) in disk.files
      ensures !old(failed) ==> SameBut(old(disk), disk)
      ensures history == old(history) || history == old(history) + [disk]
    {
      state, picture := StoredKeys(disk)[k].state, PictureOf(disk, k);
      if picture.None? {
        state := if state.emoji == SENTINEL_EMOJI then state.(emoji := 0) else state;
      } else if StoredKeys(disk)[k].glyph.Some? {
        onDisk := onDisk + {Hash(picture.value)};
      } else {
        if !failed {
          MoreFiles(disk, Hash(picture.value));
        }
        SaveGlyph(picture.value);
      }
    }

    /** `load`: the keys and glyphs that the directory holds. */
    method Load() returns (keys: map<byte, KeyState>, glyphs: map<byte, seq<byte>>)
      requires Good() && !failed
      modifies this
      ensures !failed ==> keys == LoadedKeys(old(disk)) && glyphs == LoadedGlyphs(old(disk)) && SameBut(old(disk), disk)
      ensures !failed ==> forall k :: k in glyphs ==> Hash(glyphs[k]) in disk.files
      ensures Good() && old(history) <= history
      ensures !failed ==> forall i :: |old(history)| <= i < |history| ==> SameBut(old(disk), history[i])
    {
      hide SameBut, PictureOf, Sound, LoadedKeys, LoadedGlyphs;
      LoadedDomains(disk);
      keys, glyphs := map[], map[];
      var rest := StoredKeys(disk).Keys;
      SameAsItself(disk);
      while rest != {}
        invariant Good() && rest <= StoredKeys(old(disk)).Keys && old(history) <= history
        invariant !failed ==>
                    SameBut(old(disk), disk) && forall i :: |old(history)| <= i < |history| ==>
                        SameBut(old(disk), history[i])
        invariant !failed ==> forall k :: k in keys <==> k in StoredKeys(old(disk)) && k !in rest
        invariant !failed ==> forall k :: k in keys ==> keys[k] == LoadedKeys(old(disk))[k]
        invariant !failed ==> forall k :: k in glyphs <==> k in LoadedGlyphs(old(disk)) && k !in rest
        invariant !failed ==>
                    forall k :: k in glyphs ==> glyphs[k] == LoadedGlyphs(old(disk))[k] && Hash(glyphs[k]) in disk.files
        invariant StoredKeys(disk) == StoredKeys(old(disk))
      {
        var k :| k in rest;
        rest := rest - {k};
        ghost var before := disk;
        var state, picture := LoadKey(k);
        keys := keys[k := state];
        if picture.Some? {
          glyphs := glyphs[k := picture.value];
        }
        if !failed {
          SameStill(old(disk), before, disk, k);
        }
      }
    }

    /** `prune`: at the start, the glyph files that no key shows are deleted, but for those that do not go. */
    method Prune(glyphs: map<byte, seq<byte>>, stuck: set<Hash>)
      requires Good() && !failed && glyphs == LoadedGlyphs(disk)
      modifies this
      ensures Good() && !failed && disk.keysFile == old(disk).keysFile && disk.legacy == old(disk).legacy
      ensures forall h :: h in disk.files <==> h in old(disk).files && (h in stuck || h in HashesOf(glyphs))
      ensures LoadedKeys(disk) == LoadedKeys(old(disk)) && LoadedGlyphs(disk) == glyphs
      ensures stuck == {} && Consistent(old(disk)) ==> (Consistent(disk) <==> AllWhole(disk))
      ensures AllWhole(disk) ==> Consistent(disk)
    {
      hide LoadedKeys, LoadedGlyphs, Sound, PictureOf, Names;
      var keep := HashesOf(glyphs);
      var rest := disk.files.Keys;
      while rest != {}
        invariant Good() && !failed && disk.keysFile == old(disk).keysFile && disk.legacy == old(disk).legacy
        invariant rest <= old(disk).files.Keys
        invariant forall h :: h in disk.files <==> h in old(disk).files && (h in rest || h in stuck || h in keep)
        invariant LoadedKeys(disk) == LoadedKeys(old(disk)) && LoadedGlyphs(disk) == glyphs
      {
        var h :| h in rest;
        rest := rest - {h};
        if h !in keep && h !in stuck {
          FewerFiles(disk, h);
          disk := disk.(files := disk.files - {h});
          history := history + [disk];
          onDisk := onDisk - {h};
        }
      }
      WholeNamesStay(disk);
      KeptAreWhole(disk);
    }
  }

  function HashesOf(glyphs: map<byte, seq<byte>>): set<Hash> {
    set k | k in glyphs :: Hash(glyphs[k])
  }

  ghost predicate AllWhole(d: Disk) {
    forall h :: Names(d, h) ==> |h.of| == GLYPH_SIZE
  }

  lemma WholeNamesStay(d: Disk)
    requires Sound(d)
    ensures AllWhole(d) ==> Consistent(d)
  {
  }

  lemma KeptAreWhole(d: Disk)
    ensures forall k :: k in LoadedGlyphs(d) ==> |LoadedGlyphs(d)[k]| == GLYPH_SIZE
  {
  }

  /** Without the file of a glyph that no restart would show, a restart gives back the same. */
  lemma FewerFiles(d: Disk, h: Hash)
    requires Sound(d) && forall k :: k in LoadedGlyphs(d) ==> Hash(LoadedGlyphs(d)[k]) != h
    ensures var e := d.(files := d.files - {h});
            Sound(e) && LoadedKeys(e) == LoadedKeys(d) && LoadedGlyphs(e) == LoadedGlyphs(d)
  {
    var e := d.(files := d.files - {h});
    assert StoredKeys(e) == StoredKeys(d);
    forall k | k in StoredKeys(d)
      ensures PictureOf(e, k) == PictureOf(d, k)
    {
      if PictureOf(d, k).Some? {
        assert k in LoadedGlyphs(d);
      }
    }
    forall g | Names(e, g) && |g.of| == GLYPH_SIZE
      ensures g in e.files
    {
      var k :| k in StoredKeys(d) && StoredKeys(d)[k].glyph == Some(g);
      assert Names(d, g);
      assert PictureOf(d, k) == Some(g.of);
      assert k in LoadedGlyphs(d);
    }
  }

  /** reconnect.go's Reconnecting, as far as it saves: what each key shows, in memory and on disk. */
  class Daemon {
    const store: Store
    var keys: map<byte, KeyState>
    var glyphs: map<byte, seq<byte>>

    /** While nothing failed, a restart gives back what memory holds, and every glyph in memory has its file. */
    ghost predicate Valid()
      reads this, store
    {
      && store.Good()
      && (forall k :: k in glyphs ==> k in keys && keys[k].emoji == SENTINEL_EMOJI)
      && (!store.failed ==> forall k :: k in glyphs ==> Hash(glyphs[k]) in store.disk.files)
      && (!store.failed && store.disk.legacy == map[] ==>
           LoadedKeys(store.disk) == KeptKeys(keys, glyphs) && LoadedGlyphs(store.disk) == KeptGlyphs(glyphs))
    }

    /** `loadState`: the daemon starts on a directory. */
    constructor (disk: Disk, reliable: bool)
      requires Sound(disk)
      ensures store.reliable == reliable
      ensures Valid() && fresh(store) && (!store.failed ==> keys == LoadedKeys(disk) && glyphs == LoadedGlyphs(disk))
      ensures !store.failed ==> store.disk.legacy == disk.legacy
      ensures !store.failed && Consistent(disk) && AllWhole(disk) ==> Consistent(store.disk)
    {
      hide Sound, LoadedKeys, LoadedGlyphs, KeptKeys, KeptGlyphs, PictureOf, Consistent, AllWhole, SameBut;
      keys, glyphs := map[], map[];
      var st := new Store(disk, reliable);
      store := st;
      new;
      if disk.keysFile.Corrupt? {
        SetAside(disk);
        var ok := store.WriteFile(disk.(keysFile := Missing));
        return;
      }
      var k, g := store.Load();
      if store.failed {
        return;
      }
      keys, glyphs := k, g;
      SameNames(disk, store.disk);
      var stuck: set<Hash> := *;
      store.Prune(glyphs, stuck);
      SameNames(disk, store.disk);
      LoadedIsKept(disk);
    }

    /** `recordKeyLocked`: the key shows this from now on. The glyph gets its file at once. */
    method RecordKey(k: byte, ks: KeyState, glyph: Option<seq<byte>>) returns (changed: bool)
      requires store.Good() && (glyph.Some? ==> ks.emoji == SENTINEL_EMOJI)
      requires forall j :: j in glyphs ==> j in keys && keys[j].emoji == SENTINEL_EMOJI
      requires !store.failed ==> forall j :: j in glyphs ==> Hash(glyphs[j]) in store.disk.files
      modifies this, store
      ensures store.Good() && (old(store.failed) ==> store.failed)
      ensures forall j :: j in glyphs ==> j in keys && keys[j].emoji == SENTINEL_EMOJI
      ensures !store.failed ==> forall j :: j in glyphs ==> Hash(glyphs[j]) in store.disk.files
      ensures keys == old(keys)[k := ks]
      ensures glyphs == if glyph.Some? then old(glyphs)[k := glyph.value]
              else if ks.emoji != SENTINEL_EMOJI then old(glyphs) - {k} else old(glyphs)
      ensures !changed ==> keys == old(keys) && glyphs == old(glyphs)
      ensures !old(store.failed) ==> SameBut(old(store.disk), store.disk)
      ensures store.disk.legacy == old(store.disk).legacy
      ensures store.history == old(store.history) || store.history == old(store.history) + [store.disk]
    {
      var had, hadGlyph := k in keys, k in glyphs;
      var previous := if had then Some(keys[k]) else None;
      var previousGlyph := if hadGlyph then Some(Hash(glyphs[k])) else None;
      keys := keys[k := ks];
      if glyph.Some? {
        glyphs := glyphs[k := glyph.value];
      } else if ks.emoji != SENTINEL_EMOJI {
        glyphs := glyphs - {k};
      }
      changed := previous != Some(ks) || previousGlyph != if k in glyphs then Some(Hash(glyphs[k])) else None;
      SameAsItself(store.disk);
      if glyph.Some? {
        if !store.failed {
          MoreFiles(store.disk, Hash(glyph.value));
        }
        store.SaveGlyph(glyph.value);
      }
    }

    /** What a send or a Show records: the keys, and then keys.json once when something changed. At every
        point on the way a restart gives back what it gave before, or what the daemon remembers afterwards. */
    method Record(items: seq<Item>)
      requires Valid() && forall i :: 0 <= i < |items| ==>
                 items[i].glyph.Some? ==> items[i].state.emoji == SENTINEL_EMOJI
      modifies this, store
      ensures Valid() && (old(store.failed) ==> store.failed) && store.disk.legacy == old(store.disk.legacy)
      ensures keys == old(keys) + StatesOf(items) && old(store.history) <= store.history
      ensures glyphs == GlyphsAfter(old(glyphs), items)
      ensures !store.failed && Consistent(old(store.disk)) ==>
                forall i :: |old(store.history)| <= i < |store.history| ==> Consistent(store.history[i])
      ensures !store.failed ==>
                forall i :: |old(store.history)| <= i < |store.history| ==>
                  RestartsAs(store.history[i], old(store.disk)) || RestartsAs(store.history[i], store.disk)
    {
      hide Sound, LoadedKeys, LoadedGlyphs, KeptKeys, KeptGlyphs, Encoded, PictureOf, Consistent, SameBut, StatesOf,
           GlyphsAfter;
      var changed := RecordKeys(items);
      SameMeans(old(store.disk));
      if changed {
        SaveKeys();
      }
    }

    /** The keys of a send or a Show, one after the other; keys.json is not written yet. */
    method RecordKeys(items: seq<Item>) returns (changed: bool)
      requires Valid() && forall i :: 0 <= i < |items| ==>
                 items[i].glyph.Some? ==> items[i].state.emoji == SENTINEL_EMOJI
      modifies this, store
      ensures store.Good() && (old(store.failed) ==> store.failed)
      ensures forall j :: j in glyphs ==> j in keys && keys[j].emoji == SENTINEL_EMOJI
      ensures !store.failed ==>
                SameBut(old(store.disk), store.disk) && forall j :: j in glyphs ==> Hash(glyphs[j]) in store.disk.files
      ensures old(store.history) <= store.history && store.disk.legacy == old(store.disk.legacy)
      ensures !store.failed ==>
                forall j :: |old(store.history)| <= j < |store.history| ==> SameBut(old(store.disk), store.history[j])
      ensures keys == old(keys) + StatesOf(items) && glyphs == GlyphsAfter(old(glyphs), items)
      ensures !changed ==> keys == old(keys) && glyphs == old(glyphs)
    {
      hide Sound, LoadedKeys, LoadedGlyphs, KeptKeys, KeptGlyphs, Encoded, PictureOf, Consistent, SameBut, Names;
      changed := false;
      SameAsItself(store.disk);
      for i := 0 to |items|
        invariant store.Good() && (old(store.failed) ==> store.failed)
        invariant forall j :: j in glyphs ==> j in keys && keys[j].emoji == SENTINEL_EMOJI
        invariant !store.failed ==> forall j :: j in glyphs ==> Hash(glyphs[j]) in store.disk.files
        invariant !store.failed ==> SameBut(old(store.disk), store.disk)
        invariant old(store.history) <= store.history && store.disk.legacy == old(store.disk.legacy)
        invariant !store.failed ==>
                    forall j :: |old(store.history)| <= j < |store.history| ==>
                        SameBut(old(store.disk), store.history[j])
        invariant glyphs == GlyphsAfter(old(glyphs), items[..i])
        invariant keys == old(keys) + StatesOf(items[..i]) && (!changed ==> keys == old(keys) && glyphs == old(glyphs))
      {
        ghost var before := store.disk;
        var c := RecordKey(items[i].key, items[i].state, items[i].glyph);
        changed := changed || c;
        assert items[..i + 1][..i] == items[..i];
        if !store.failed {
          SameChain(old(store.disk), before, store.disk);
        }
      }
      assert items[..|items|] == items;
    }

    /** `SendKeyState`: the key keeps its glyph when the state names the sentinel. */
    method SendKeyState(k: byte, ks: KeyState)
      requires Valid()
      modifies this, store
      ensures Valid() && keys == old(keys)[k := ks] && (old(store.failed) ==> store.failed)
              && store.disk.legacy == old(store.disk.legacy)
      ensures glyphs == if ks.emoji == SENTINEL_EMOJI then old(glyphs) else old(glyphs) - {k}
    {
      Record([Item(k, ks, if ks.emoji == SENTINEL_EMOJI && k in glyphs then Some(glyphs[k]) else None)]);
    }

    /** `SendCustomGlyph`: it does not look at the size of the glyph. */
    method SendCustomGlyph(k: byte, pixels: seq<byte>)
      requires Valid()
      modifies this, store
      ensures Valid() && glyphs == old(glyphs)[k := pixels] && (old(store.failed) ==> store.failed)
      ensures k in keys && keys[k].emoji == SENTINEL_EMOJI && store.disk.legacy == old(store.disk.legacy)
    {
      var ks := if k in keys then keys[k] else KeyState(0, 0, false);
      Record([Item(k, ks.(emoji := SENTINEL_EMOJI), Some(pixels))]);
    }

    /** `saveKeys`. */
    method SaveKeys()
      requires store.Good() && forall k :: k in glyphs ==> k in keys && keys[k].emoji == SENTINEL_EMOJI
      requires !store.failed ==> forall k :: k in glyphs ==> Hash(glyphs[k]) in store.disk.files
      modifies store
      ensures Valid() && (old(store.failed) ==> store.failed) && store.disk.legacy == old(store.disk.legacy)
      ensures !store.failed ==> store.history == old(store.history) + [store.disk] && Consistent(store.disk)
      ensures old(store.history) <= store.history
    {
      hide LoadedKeys, LoadedGlyphs, KeptKeys, KeptGlyphs, Encoded, PictureOf;
      var next := store.disk.(keysFile := Saved(Encoded(keys, glyphs)));
      if !store.failed {
        SavedIsSound(next, keys, glyphs);
        if next.legacy == map[] {
          LoadUndoesSave(next, keys, glyphs);
        }
      }
      var ok := store.WriteFile(next);
    }
  }

  /** A key to record: its state, and the glyph it shows when it shows one. */
  datatype Item = Item(key: byte, state: KeyState, glyph: Option<seq<byte>>)

  /** What a list of records leaves: the last state of each key. */
  function StatesOf(items: seq<Item>): map<byte, KeyState> {
    if items == [] then map[] else StatesOf(items[..|items| - 1])[items[|items| - 1].key := items[|items| - 1].state]
  }

  /** What it leaves of the glyphs. */
  function GlyphsAfter(glyphs: map<byte, seq<byte>>, items: seq<Item>): map<byte, seq<byte>> {
    if items == [] then glyphs
    else
      var before, i := GlyphsAfter(glyphs, items[..|items| - 1]), items[|items| - 1];
      if i.glyph.Some? then before[i.key := i.glyph.value]
          else if i.state.emoji != SENTINEL_EMOJI then before - {i.key} else before
  }

  /** A glyph sent and then a restart, with every write going through: the key shows it again exactly when it is a
      whole glyph. */
  method SendThenRestart(k: byte, pixels: seq<byte>) returns (again: Daemon)
    ensures fresh(again) && again.Valid() && !again.store.failed
    ensures k in again.glyphs <==> |pixels| == GLYPH_SIZE
    ensures k in again.glyphs ==> again.glyphs == map[k := pixels]
    ensures k in again.keys && (again.keys[k].emoji == SENTINEL_EMOJI <==> k in again.glyphs)
  {
    hide Sound, LoadedKeys, LoadedGlyphs, Encoded, PictureOf, Consistent, SameBut;
    var empty := Disk(Missing, map[], map[]);
    EmptyIsSound();
    var d := new Daemon(empty, true);
    d.SendCustomGlyph(k, pixels);
    assert Sound(d.store.disk);
    again := new Daemon(d.store.disk, true);
  }

  lemma EmptyIsSound()
    ensures var d := Disk(Missing, map[], map[]); Sound(d) && LoadedKeys(d) == map[] && LoadedGlyphs(d) == map[]
  {
  }

  ghost predicate RestartsAs(d: Disk, e: Disk) {
    LoadedKeys(d) == LoadedKeys(e) && LoadedGlyphs(d) == LoadedGlyphs(e)
  }

  lemma SameChain(a: Disk, b: Disk, c: Disk)
    requires SameBut(a, b) && SameBut(b, c)
    ensures SameBut(a, c)
  {
  }

  lemma SameMeans(a: Disk)
    ensures forall b :: SameBut(a, b) ==> RestartsAs(b, a) && b.legacy == a.legacy && (Consistent(a) ==> Consistent(b))
  {
  }

  lemma SameNames(d: Disk, e: Disk)
    ensures d.keysFile == e.keysFile ==> (AllWhole(d) <==> AllWhole(e))
    ensures SameBut(d, e) ==> e.keysFile == d.keysFile && e.legacy == d.legacy && LoadedKeys(e) == LoadedKeys(d)
                              && LoadedGlyphs(e) == LoadedGlyphs(d)
  {
    if d.keysFile == e.keysFile {
      assert StoredKeys(d) == StoredKeys(e);
      assert forall h :: Names(d, h) <==> Names(e, h);
    }
  }

  lemma SetAside(d: Disk)
    requires Sound(d) && d.keysFile.Corrupt?
    ensures var e := d.(keysFile := Missing);
            && Sound(e) && Consistent(e) && LoadedKeys(e) == LoadedKeys(d) == map[]
            && LoadedGlyphs(e) == LoadedGlyphs(d) == map[]
    ensures KeptKeys(map[], map[]) == map[] && KeptGlyphs(map[]) == map[]
  {
  }

  /** Loading twice is loading once. */
  lemma LoadedIsKept(d: Disk)
    ensures KeptKeys(LoadedKeys(d), LoadedGlyphs(d)) == LoadedKeys(d) && KeptGlyphs(LoadedGlyphs(d)) == LoadedGlyphs(d)
    ensures forall k :: k in LoadedGlyphs(d) ==> k in LoadedKeys(d) && LoadedKeys(d)[k].emoji == SENTINEL_EMOJI
  {
  }

  lemma LoadedDomains(d: Disk)
    ensures LoadedKeys(d).Keys == StoredKeys(d).Keys && LoadedGlyphs(d).Keys <= StoredKeys(d).Keys
  {
  }

  lemma SameAsItself(d: Disk)
    ensures SameBut(d, d)
  {
  }

  lemma SameStill(a: Disk, b: Disk, c: Disk, k: byte)
    requires SameBut(a, b) && SameBut(b, c) && k in StoredKeys(a)
    ensures SameBut(a, c) && StoredKeys(b) == StoredKeys(c) == StoredKeys(a) && b.files.Keys <= c.files.Keys
    ensures LoadedKeys(b) == LoadedKeys(a) && LoadedGlyphs(b) == LoadedGlyphs(a)
    ensures PictureOf(b, k).Some? <==> k in LoadedGlyphs(a)
    ensures PictureOf(b, k).Some? ==> PictureOf(b, k).value == LoadedGlyphs(a)[k]
  {
  }

  /** The same directory for a restart, with more glyph files. */
  ghost predicate SameBut(d: Disk, e: Disk) {
    && e.keysFile == d.keysFile && e.legacy == d.legacy && LoadedKeys(e) == LoadedKeys(d)
       && LoadedGlyphs(e) == LoadedGlyphs(d)
    && (forall k :: k in StoredKeys(d) ==> PictureOf(e, k) == PictureOf(d, k))
    && (Consistent(d) ==> Consistent(e)) && d.files.Keys <= e.files.Keys
  }
}

/** Context keys of the semantic cache, and which rows their marker makes live. */
module RowKeys {
  import opened ModelNames
  import opened SemanticTrim

  // What a request contributes to its key; empty where it has nothing to say.
  datatype Scene = Scene(
    model: string, temperature: string, tools: string, tier: string, scope: string, speed: string, thread: string)

  function Optional(s: string): seq<string> {
    if s == "" then [] else [s]
  }

  function Tag(embedder: string): string {
    if embedder == "" then "" else "embed:" + embedder
  }

  function ContextKey(s: Scene, embedder: string): string {
    Join([s.model, s.temperature, s.tools, s.tier] + Optional(s.scope) + Optional(Tag(embedder))
         + Optional(s.speed) + Optional(s.thread), '|')
  }

  function MarkerOf(embedder: string): Marker {
    if embedder == "" then NoMarker else Mark("embed:" + embedder)
  }

  // ---- A key is a front, the tag and a back ----

  function Bars(parts: seq<string>): string {
    if parts == [] then "" else "|" + parts[0] + Bars(parts[1..])
  }

  lemma {:induction false} JoinIsBars(parts: seq<string>)
    requires parts != []
    ensures "|" + Join(parts, '|') == Bars(parts)
  {
    if |parts| > 1 {
      JoinIsBars(parts[1..]);
    }
  }

  lemma {:induction false} BarsConcat(a: seq<string>, b: seq<string>)
    ensures Bars(a + b) == Bars(a) + Bars(b)
  {
    if a == [] {
      assert a + b == b;
    } else {
      assert (a + b)[1..] == a[1..] + b;
      BarsConcat(a[1..], b);
    }
  }

  function Front(s: Scene): string {
    Join([s.model, s.temperature, s.tools, s.tier] + Optional(s.scope), '|')
  }

  function Back(s: Scene): string {
    Bars(Optional(s.speed) + Optional(s.thread))
  }

  lemma KeyIsThreeParts(s: Scene, embedder: string)
    ensures ContextKey(s, embedder) == Front(s) + Bars(Optional(Tag(embedder))) + Back(s)
  {
    var front, tag, back := [s.model, s.temperature, s.tools, s.tier] + Optional(s.scope), Optional(Tag(embedder)),
      Optional(s.speed) + Optional(s.thread);
    var all := front + tag + back;
    assert all == front + tag + Optional(s.speed) + Optional(s.thread);
    hide Bars, Join, Optional, Tag;
    JoinIsBars(all);
    JoinIsBars(front);
    BarsConcat(front + tag, back);
    BarsConcat(front, tag);
    CutBar(ContextKey(s, embedder), Front(s), Bars(tag), Bars(back));
  }

  lemma CutBar(key: string, front: string, tag: string, back: string)
    requires "|" + key == "|" + front + tag + back
    ensures key == front + tag + back
  {
    assert ("|" + key)[1..] == key && ("|" + front + tag + back)[1..] == front + tag + back;
  }

  lemma OneBar(part: string)
    ensures Bars([part]) == "|" + part
  {
    assert [part][1..] == [];
  }

  // Where the tag of a key stands.
  function TagAt(s: Scene): nat {
    |Front(s)| + 1
  }

  lemma TaggedKey(s: Scene, embedder: string)
    requires embedder != ""
    ensures var key := ContextKey(s, embedder);
      |key| >= TagAt(s) && key[TagAt(s)..] == "embed:" + embedder + Back(s)
  {
    KeyIsThreeParts(s, embedder);
    OneBar("embed:" + embedder);
    hide Bars, Front, Back, ContextKey;
    assert ContextKey(s, embedder) == Front(s) + "|" + ("embed:" + embedder + Back(s));
  }

  lemma BackStartsAtABar(s: Scene)
    ensures Back(s) == "" || Back(s)[0] == '|'
  {
  }

  /** A key made for an embedder whose id begins with the running one's carries the marker;
      so every row the running embedder stores does, and so do the rows of another one that
      has a longer id with the same beginning. */
  lemma LongerIdsAreLive(s: Scene, id: string, rest: string)
    requires id != ""
    ensures MarkerOf(id).Mark? && Occurs(MarkerOf(id).text, ContextKey(s, id + rest))
  {
    var key, i, text := ContextKey(s, id + rest), TagAt(s), "embed:" + id;
    TaggedKey(s, id + rest);
    hide ContextKey, Back, TagAt, Occurs;
    assert "embed:" + (id + rest) + Back(s) == text + (rest + Back(s));
    OccursFrom(key, i, text, rest + Back(s));
  }

  lemma OccursFrom(hay: string, i: nat, needle: string, rest: string)
    requires i <= |hay| && hay[i..] == needle + rest
    ensures Occurs(needle, hay)
  {
    assert hay[i..i + |needle|] == hay[i..][..|needle|] == needle;
    assert OccursAt(needle, hay, i);
  }

  // No other segment of the key has anything like a tag in it.
  ghost predicate OneTagOnly(s: Scene, embedder: string) {
    forall i :: OccursAt("embed:", ContextKey(s, embedder), i) ==> embedder != "" && i == TagAt(s)
  }

  /** Where no other segment looks like a tag, a row counts as the running embedder's exactly
      if the running id is a beginning of the id it was stored under. */
  lemma LiveIffIdBegins(s: Scene, id: string, stored: string)
    requires id != "" && '|' !in id && OneTagOnly(s, stored)
    ensures Occurs(MarkerOf(id).text, ContextKey(s, stored)) <==> id <= stored
  {
    hide ContextKey, Back, TagAt, Occurs;
    if id <= stored {
      LongerIdsAreLive(s, id, stored[|id|..]);
      assert stored == id + stored[|id|..];
    } else if Occurs("embed:" + id, ContextKey(s, stored)) {
      var i := MarkerAtTag(s, id, stored);
      TaggedKey(s, stored);
      BackStartsAtABar(s);
      IdsBegin(id, stored, Back(s), ContextKey(s, stored)[i..]);
    }
  }

  lemma MarkerAtTag(s: Scene, id: string, stored: string) returns (i: nat)
    requires Occurs("embed:" + id, ContextKey(s, stored)) && OneTagOnly(s, stored)
    ensures stored != "" && i == TagAt(s) <= |ContextKey(s, stored)|
    ensures "embed:" + id <= ContextKey(s, stored)[i..]
  {
    hide ContextKey, TagAt;
    var key, text := ContextKey(s, stored), "embed:" + id;
    i :| OccursAt(text, key, i);
    assert text[..6] == "embed:";
    assert key[i..i + 6] == key[i..i + |text|][..6];
    assert OccursAt("embed:", key, i);
    assert key[i..][..|text|] == key[i..i + |text|];
  }

  lemma IdsBegin(id: string, stored: string, back: string, tail: string)
    requires tail == "embed:" + stored + back && "embed:" + id <= tail
    requires back == "" || back[0] == '|'
    ensures id <= stored || '|' in id
  {
    assert tail[6..] == stored + back && ("embed:" + id)[6..] == id;
    assert id <= stored + back;
    if |stored| < |id| {
      assert back != "" && id[|stored|] == (stored + back)[|stored|];
    }
  }

  /** A row whose key lacks the marker is kept by a trim only if every row whose key has it
      is kept too. */
  lemma LiveRowsGoLast(cfg: Config, xs: seq<Entry>, row: Entry)
    requires cfg.maxEntries > 0 && cfg.marker.Mark? && |xs| > cfg.maxEntries
    requires row in Trim(cfg, xs) && !Occurs(cfg.marker.text, row.contextKey)
    ensures Current(cfg, Trim(cfg, xs)) == Current(cfg, xs)
  {
    var kept := Trim(cfg, xs);
    TrimKeepsNewest(cfg, xs);
    SelectCounts(cfg, StaleRows, kept, row);
    hide Trim, Select, Occurs;
    assert multiset(Stale(cfg, kept))[row] > 0;
    assert Stale(cfg, kept) != [];
  }

  /** So of two rows as the cache stores them, one under the running embedder's id and one
      under an id that does not begin with it, the second is dropped first: whenever it is
      kept the other is. */
  lemma OtherEmbeddersGoFirst(cfg: Config, id: string, xs: seq<Entry>, mine: Entry, other: Entry,
      s: Scene, t: Scene, stored: string)
    requires id != "" && '|' !in id && cfg.marker == MarkerOf(id) && cfg.maxEntries > 0
    requires mine in xs && mine.contextKey == ContextKey(s, id)
    requires other.contextKey == ContextKey(t, stored) && OneTagOnly(t, stored) && !(id <= stored)
    ensures other in Trim(cfg, xs) ==> mine in Trim(cfg, xs)
  {
    hide Trim, ContextKey, Occurs, Select, OneTagOnly;
    if |xs| <= cfg.maxEntries {
      ShortIsKept(cfg, xs);
    } else if other in Trim(cfg, xs) {
      LiveIffIdBegins(t, id, stored);
      LongerIdsAreLive(s, id, "");
      assert id + "" == id;
      LiveRowsGoLast(cfg, xs, other);
      SelectCounts(cfg, CurrentRows, xs, mine);
      SelectCounts(cfg, CurrentRows, Trim(cfg, xs), mine);
      assert multiset(Current(cfg, xs))[mine] > 0;
    }
  }

  lemma ShortIsKept(cfg: Config, xs: seq<Entry>)
    requires |xs| <= cfg.maxEntries
    ensures Trim(cfg, xs) == xs
  {
  }
}

/**
 * The `/asset` slash-command handler of the asset bot: it normalises the
 * query from the `text` form field, looks it up in the in-memory asset
 * table, and answers either with a private "not found" message or with one
 * channel-wide section block describing the person's laptop.
 */
module AssetBot {
  import opened Wrappers
  import opened PyStr

  /** One person's assets: field name to value (`laptop`, `serial`, ...). */
  type Record = map<string, string>

  /** The asset table: lower-case person name to record. */
  type Table = map<string, Record>

  /** A text object of a block, with its `type` (always `mrkdwn` here). */
  datatype TextObject = TextObject(textType: string, text: string)

  /** A display block, with its `type` (always `section` here). */
  datatype Block = Block(blockType: string, text: TextObject)

  /** The JSON payload: an `ephemeral` reply carries `text` only, an
      `in_channel` reply carries `blocks` only. */
  datatype Response = Ephemeral(text: string) | InChannel(blocks: seq<Block>) {

    /** The payload's `response_type` field. */
    function ResponseType(): string
    {
      if Ephemeral? then "ephemeral" else "in_channel"
    }
  }

  /** The fixed wording of the two messages. */
  const NotFoundOpen := "\U{274C} Could not find any assets assigned to '"
  const NotFoundClose := "'."
  const HeadingOpen := "\U{1F4BB} *Asset Data: "
  const DeviceLabel := "*\nDevice: "
  const SerialLabel := "\nSerial: `"
  const SerialClose := "`"

  /** One entry of the mock database, with its four fields. */
  function Asset(laptop: string, serial: string, monitor: string, lastAudit: string): (r: Record)
    ensures "laptop" in r && "serial" in r && r != map[]
    ensures r["laptop"] == laptop && r["serial"] == serial
  {
    assert "laptop"[0] != "serial"[0];
    assert |"laptop"| != |"monitor"| && |"laptop"| != |"last_audit"|;
    assert |"serial"| != |"monitor"| && |"serial"| != |"last_audit"|;
    map["laptop" := laptop, "serial" := serial, "monitor" := monitor, "last_audit" := lastAudit]
  }

  /** The mock asset database the handler reads. */
  const AssetDatabase: Table := map[
    "sarah connor" := Asset("MacBook Pro 16 (M3 Max)", "SC-992-X", "Dell UltraSharp 27", "2023-11-15"),
    "john smith" := Asset("Dell XPS 15", "JS-554-Y", "None", "2024-01-10")
  ]

  /** `asset_database.get(key)`. */
  function Get(db: Table, key: string): (e: Option<Record>)
    ensures e.Some? <==> key in db
    ensures e.Some? ==> e.value == db[key]
  {
    if key in db then Some(db[key]) else None
  }

  /** Python truthiness of the looked-up entry: `None` and the empty dict are
      falsy. */
  predicate Falsy(e: Option<Record>)
  {
    e.None? || e.value == map[]
  }

  /** The match branch indexes `laptop` and `serial`; a truthy entry lacking
      either would raise `KeyError`. */
  predicate Renderable(e: Option<Record>)
  {
    Falsy(e) || ("laptop" in e.value && "serial" in e.value)
  }

  /** The invariant the asset table is written to keep: every key is a
      non-empty, trimmed, lower-case name, and every record has `laptop` and
      `serial`. */
  ghost predicate TableInvariant(db: Table)
  {
    forall k :: k in db ==> k != "" && Trimmed(k) && NoUpper(k) && "laptop" in db[k] && "serial" in db[k]
  }

  /** The query normalisation of the lookup handler: strip, then lower-case. */
  function Normalize(s: string): (r: string)
    ensures Trimmed(r) && NoUpper(r)
  {
    var t := Strip(s);
    ToLowerTrimmed(t);
    ToLower(t)
  }

  /** Normalising is idempotent. */
  lemma NormalizeIdempotent(s: string)
    ensures Normalize(Normalize(s)) == Normalize(s)
  {
    var t := Strip(s);
    StripToLower(t);
    StripTrimmed(t);
    ToLowerIdempotent(t);
  }

  /** Reference definition of normalisation: `r` is the normalisation of `s`
      exactly when `r` has no upper-case letter and agrees up to case with
      the stripped form of `s`. */
  lemma NormalizeCharacterization(s: string, r: string)
    ensures r == Normalize(s) <==> NoUpper(r) && exists t :: StrippedFrom(s, t) && ToLower(r) == ToLower(t)
  {
    StripIsStrippedFrom(s);
    ToLowerNoUpper(r);
    ToLowerIdempotent(Strip(s));
    if t :| StrippedFrom(s, t) && ToLower(r) == ToLower(t) {
      StripCharacterization(s, t);
    }
  }

  /** The case of the input never matters. */
  lemma NormalizeIgnoresCase(s: string)
    ensures Normalize(ToLower(s)) == Normalize(s)
  {
    StripToLower(s);
    ToLowerIdempotent(Strip(s));
  }

  /** Whitespace around the input never matters. */
  lemma NormalizeIgnoresSurroundingSpace(pre: string, s: string, post: string)
    requires AllSpace(pre) && AllSpace(post)
    ensures Normalize(pre + s + post) == Normalize(s)
  {
    StripIsStrippedFrom(s);
    StrippedFromPadded(pre, s, post, Strip(s));
    StripCharacterization(pre + s + post, Strip(s));
  }

  /** A blank query (empty or only whitespace) normalises to the empty string. */
  lemma NormalizeBlank(s: string)
    requires AllSpace(s)
    ensures Normalize(s) == []
  {
    StripAllSpace(s);
  }

  /** Normalising the title-cased form of a normalised string gives the
      string back. */
  lemma NormalizeTitle(q: string)
    requires q == Normalize(q)
    ensures Normalize(Title(q)) == q
  {
    TitleTrimmed(q);
    StripTrimmed(Title(q));
    TitleToLower(q);
    ToLowerNoUpper(q);
  }

  /** The normalised query: the `text` field, `''` when absent, stripped and
      lower-cased. */
  function Query(formText: Option<string>): (q: string)
    ensures Trimmed(q) && NoUpper(q)
  {
    Normalize(formText.GetOr(""))
  }

  /** The ephemeral message naming the query that found nothing. */
  function NotFoundText(q: string): string
  {
    NotFoundOpen + q + NotFoundClose
  }

  /** The section text of a match: the displayed name, the laptop, and the
      serial in backticks. */
  function AssetText(name: string, laptop: string, serial: string): string
  {
    HeadingOpen + name + DeviceLabel + laptop + SerialLabel + serial + SerialClose
  }

  /** The `/asset` handler. */
  function AssetLookup(formText: Option<string>, db: Table): (r: Response)
    requires Renderable(Get(db, Query(formText)))
    ensures var q := Query(formText);
            r.Ephemeral? <==> q !in db || db[q] == map[]
    ensures r.Ephemeral? ==> r.ResponseType() == "ephemeral" && r.text == NotFoundText(Query(formText))
    ensures r.InChannel? ==>
              var q := Query(formText);
              && r.ResponseType() == "in_channel"
              && |r.blocks| == 1
              && r.blocks[0].blockType == "section"
              && r.blocks[0].text.textType == "mrkdwn"
              && r.blocks[0].text.text == AssetText(Title(q), db[q]["laptop"], db[q]["serial"])
  {
    var q := Query(formText);
    var info := Get(db, q);
    if Falsy(info) then
      Ephemeral(NotFoundText(q))
    else
      InChannel([Block("section", TextObject("mrkdwn",
        AssetText(Title(q), info.value["laptop"], info.value["serial"])))])
  }

  /** Under the table invariant no query can reach the `KeyError`. */
  lemma InvariantRenderable(db: Table, formText: Option<string>)
    requires TableInvariant(db)
    ensures Renderable(Get(db, Query(formText)))
  {
  }

  /** The shipped table keeps the invariant. */
  lemma AssetDatabaseInvariant()
    ensures TableInvariant(AssetDatabase)
  {
    KeyWellFormed("sarah connor");
    KeyWellFormed("john smith");
    forall k | k in AssetDatabase
      ensures k != "" && Trimmed(k) && NoUpper(k) && "laptop" in AssetDatabase[k] && "serial" in AssetDatabase[k]
    {
      assert k == "sarah connor" || k == "john smith";
    }
  }

  /** A non-empty name of letters and inner spaces is a well-formed key. */
  lemma KeyWellFormed(k: string)
    requires k != [] && IsLower(k[0]) && IsLower(k[|k| - 1])
    requires forall i :: 0 <= i < |k| ==> IsLower(k[i]) || k[i] == ' '
    ensures k != "" && Trimmed(k) && NoUpper(k)
  {
  }

  /** A trimmed name without upper-case letters is its own normalisation. */
  lemma NormalizedName(k: string)
    requires Trimmed(k) && NoUpper(k)
    ensures Normalize(k) == k
  {
    StripTrimmed(k);
    ToLowerNoUpper(k);
  }

  /** Upper-case letters in the query never change the reply. */
  lemma CaseIgnored(s: string, db: Table)
    requires TableInvariant(db)
    ensures AssetLookup(Some(ToLower(s)), db) == AssetLookup(Some(s), db)
  {
    NormalizeIgnoresCase(s);
  }

  /** Whitespace around the query never changes the reply. */
  lemma SurroundingSpaceIgnored(pre: string, s: string, post: string, db: Table)
    requires TableInvariant(db) && AllSpace(pre) && AllSpace(post)
    ensures AssetLookup(Some(pre + s + post), db) == AssetLookup(Some(s), db)
  {
    NormalizeIgnoresSurroundingSpace(pre, s, post);
  }

  /** A blank or absent query is never a key of a table with non-empty keys,
      so it always gets the not-found reply naming the empty query. */
  lemma BlankQueryNotFound(formText: Option<string>, db: Table)
    requires TableInvariant(db)
    requires formText.None? || AllSpace(formText.value)
    ensures AssetLookup(formText, db) == Ephemeral(NotFoundText(""))
  {
    if formText.Some? {
      NormalizeBlank(formText.value);
    }
  }

  /** Every non-empty record of a table that keeps the invariant is reached
      by typing its key. */
  lemma EveryKeyReachable(k: string, db: Table)
    requires TableInvariant(db) && k in db && db[k] != map[]
    ensures var r := AssetLookup(Some(k), db);
            r.InChannel? && r.blocks[0].text.text == AssetText(Title(k), db[k]["laptop"], db[k]["serial"])
  {
    NormalizedName(k);
  }

  /** The name displayed in a match, typed back as a query, gives the same
      reply. */
  lemma DisplayedNameRoundTrip(formText: Option<string>, db: Table)
    requires TableInvariant(db)
    requires AssetLookup(formText, db).InChannel?
    ensures AssetLookup(Some(Title(Query(formText))), db) == AssetLookup(formText, db)
  {
    NormalizeIdempotent(formText.GetOr(""));
    NormalizeTitle(Query(formText));
  }

  /** The reply shows only `laptop` and `serial`: two tables that agree on
      which names have a non-empty record and on those two fields give the
      same reply, whatever other fields (`monitor`, `last_audit`) hold. */
  lemma OnlyLaptopAndSerialShown(formText: Option<string>, db: Table, db': Table)
    requires TableInvariant(db) && TableInvariant(db')
    requires var q := Query(formText);
             && (q in db && db[q] != map[] <==> q in db' && db'[q] != map[])
             && (q in db && db[q] != map[] ==>
                   db[q]["laptop"] == db'[q]["laptop"] && db[q]["serial"] == db'[q]["serial"])
    ensures AssetLookup(formText, db) == AssetLookup(formText, db')
  {
  }

  /** The section text holds, in this order, the heading with the title-cased
      name, the laptop, and the serial wrapped in backticks. */
  lemma AssetTextLayout(name: string, laptop: string, serial: string)
    ensures var t := AssetText(name, laptop, serial);
            var a := |HeadingOpen|;
            var b := a + |name| + |DeviceLabel|;
            var c := b + |laptop| + |SerialLabel| - 1;
            && |t| == c + |serial| + 2
            && t[..a] == HeadingOpen
            && t[a..a + |name|] == name
            && t[b..b + |laptop|] == laptop
            && t[c..] == "`" + serial + "`"
  {
    var t := AssetText(name, laptop, serial);
    var a := |HeadingOpen|;
    var b := a + |name| + |DeviceLabel|;
    var c := b + |laptop| + |SerialLabel| - 1;
    assert t == HeadingOpen + name + DeviceLabel + laptop + SerialLabel + serial + SerialClose;
    assert SerialLabel == "\nSerial: " + "`";
  }

  /** The not-found text names the normalised query between fixed quotes. */
  lemma NotFoundTextLayout(q: string)
    ensures var t := NotFoundText(q);
            var a := |NotFoundOpen|;
            && |t| == a + |q| + 2
            && t[..a] == NotFoundOpen
            && t[a..a + |q|] == q
            && t[a + |q|..] == "'."
  {
    var t := NotFoundText(q);
    assert t == NotFoundOpen + q + NotFoundClose;
  }

  /** The examples of the table: upper case and padding still find John
      Smith; the bare first name does not. */
  lemma PaddedUpperCaseMatches()
    ensures AssetLookup(Some("  JOHN SMITH "), AssetDatabase)
         == InChannel([Block("section", TextObject("mrkdwn",
              AssetText("John Smith", "Dell XPS 15", "JS-554-Y")))])
  {
    PaddedUpperCaseNormalizes();
    TitleJohnSmith();
    MatchOfKey(Some("  JOHN SMITH "), AssetDatabase, "john smith");
  }

  /** The reply to a query that normalises to a key with a full record. */
  lemma MatchOfKey(formText: Option<string>, db: Table, k: string)
    requires Query(formText) == k && k in db && "laptop" in db[k] && "serial" in db[k]
    ensures AssetLookup(formText, db)
         == InChannel([Block("section", TextObject("mrkdwn", AssetText(Title(k), db[k]["laptop"], db[k]["serial"])))])
  {
  }

  /** The example query of the asset table: padding and upper case drop out,
      and title-casing restores the displayed name. */
  lemma PaddingDropped()
    ensures Normalize("  JOHN SMITH ") == Normalize("JOHN SMITH")
  {
    assert "  JOHN SMITH " == "  " + "JOHN SMITH" + " ";
    NormalizeIgnoresSurroundingSpace("  ", "JOHN SMITH", " ");
  }

  lemma UpperCaseDropped()
    ensures Normalize("JOHN SMITH") == "john smith"
  {
    StripJohnSmith();
    LowerJohnSmith();
  }

  lemma StripJohnSmith()
    ensures Strip("JOHN SMITH") == "JOHN SMITH"
  {
    var s := "JOHN SMITH";
    assert !IsSpace(s[0]) && !IsSpace(s[|s| - 1]);
    StripTrimmed(s);
  }

  lemma LowerJohnSmith()
    ensures ToLower("JOHN SMITH") == "john smith"
  {
  }

  lemma TitleJohnSmith()
    ensures Title("john smith") == "John Smith"
  {
  }

  lemma PaddedUpperCaseNormalizes()
    ensures Normalize("  JOHN SMITH ") == "john smith"
  {
    PaddingDropped();
    UpperCaseDropped();
  }

  lemma FirstNameAloneNotFound()
    ensures AssetLookup(Some("john"), AssetDatabase) == Ephemeral(NotFoundText("john"))
  {
    assert Trimmed("john") && NoUpper("john");
    NormalizedName("john");
    assert Query(Some("john")) == "john";
  }
}

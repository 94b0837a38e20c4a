/** Pages of a list, linked by cursors that name the last item shown. */
module CursorPagination {
  import opened Wrappers
  import opened Base64Url

  /** How text becomes bytes and back. */
  datatype Utf8 = Utf8(encode: string -> seq<Byte>, decode: seq<Byte> -> string)
  {
    /** Every text is read back from its bytes, and no bytes are no text. */
    ghost predicate Inverts() { decode([]) == "" && forall s :: decode(encode(s)) == s }
  }

  datatype PageError = InvalidCursor | StaleCursor

  datatype Page<T> = Page(items: seq<T>, nextCursor: Option<string>, limit: nat)

  function EncodeCursor(value: string, utf8: Utf8): string { Encode(utf8.encode(value)) }

  /** The key a cursor names; an absent or empty cursor names none. */
  function DecodeCursor(cursor: Option<string>, utf8: Utf8): Result<Option<string>, PageError> {
    if cursor.None? || cursor.value == "" then Ok(None)
    else
      var decoded := utf8.decode(Decode(cursor.value));
      if decoded == "" || EncodeCursor(decoded, utf8) != cursor.value then Err(InvalidCursor) else Ok(Some(decoded))
  }

  /** The position of the first item with the key, or the length. */
  function FindKey<T>(items: seq<T>, after: string, key: T -> string): (k: nat)
    ensures k <= |items| && (k < |items| ==> key(items[k]) == after)
    ensures forall i :: 0 <= i < k ==> key(items[i]) != after
  {
    if items == [] || key(items[0]) == after then 0 else 1 + FindKey(items[1..], after, key)
  }

  function Slice<T>(items: seq<T>, start: nat, limit: nat): (r: seq<T>)
    requires start <= |items|
    ensures |r| == Min(limit, |items| - start)
  {
    if start + limit <= |items| then items[start..start + limit] else items[start..]
  }

  /** The page that starts at a position, with a cursor if more items follow. */
  function PageAt<T>(items: seq<T>, start: nat, limit: nat, key: T -> string, utf8: Utf8): Page<T>
    requires start <= |items|
  {
    var selected := Slice(items, start, limit);
    var hasMore := start + |selected| < |items|;
    Page(
      selected,
      if hasMore && |selected| > 0 then Some(EncodeCursor(key(selected[|selected| - 1]), utf8)) else None,
      limit)
  }

  function GetPage<T>(items: seq<T>, limit: nat, cursor: Option<string>, key: T -> string, utf8: Utf8)
    : Result<Page<T>, PageError>
  {
    match DecodeCursor(cursor, utf8)
    case Err(e) => Err(e)
    case Ok(None) => Ok(PageAt(items, 0, limit, key, utf8))
    case Ok(Some(after)) =>
      var k := FindKey(items, after, key);
      if k == |items| then Err(StaleCursor) else Ok(PageAt(items, k + 1, limit, key, utf8))
  }

  // ---------- Cursors ----------

  /** Exactly the canonical cursors of non-empty keys are accepted, each for its own key. */
  lemma AcceptedCursors(cursor: string, value: string, utf8: Utf8)
    requires utf8.Inverts() && cursor != ""
    ensures DecodeCursor(Some(cursor), utf8) == Ok(Some(value)) <==> value != "" && cursor == EncodeCursor(value, utf8)
  {
    DecodeOfEncode(utf8.encode(value));
  }

  /** Any other text is refused, and only an absent or empty cursor starts from the beginning. */
  lemma OtherCursorsAreInvalid<T>(
    items: seq<T>, limit: nat, cursor: Option<string>, key: T -> string, utf8: Utf8, value: string)
    requires utf8.Inverts()
    ensures DecodeCursor(cursor, utf8) == Ok(None) <==> cursor in {None, Some("")}
    ensures cursor !in {None, Some("")} ==>
      (GetPage(items, limit, cursor, key, utf8) == Err(InvalidCursor) <==>
       forall key :: key != "" ==> cursor.value != EncodeCursor(key, utf8))
  {
    hide Encode, Decode, FindKey, PageAt, EncodeCursor;
    if cursor !in {None, Some("")} && DecodeCursor(cursor, utf8) == Err(InvalidCursor) {
      forall key | key != "" ensures cursor.value != EncodeCursor(key, utf8) {
        AcceptedCursors(cursor.value, key, utf8);
      }
    }
  }

  lemma CursorIsNotEmpty(value: string, utf8: Utf8)
    requires utf8.Inverts() && value != ""
    ensures EncodeCursor(value, utf8) != ""
  {
    DecodeOfEncode(utf8.encode(value));
  }

  // ---------- Following cursors ----------

  ghost predicate DistinctKeys<T(!new)>(items: seq<T>, key: T -> string) {
    && (forall i :: 0 <= i < |items| ==> key(items[i]) != "")
    && (forall i, j :: 0 <= i < j < |items| ==> key(items[i]) != key(items[j]))
  }

  /** The cursor that continues at a position: none at the start, else that of the item before. */
  function CursorAt<T>(items: seq<T>, start: nat, key: T -> string, utf8: Utf8): Option<string>
    requires start <= |items|
  {
    if start == 0 then None else Some(EncodeCursor(key(items[start - 1]), utf8))
  }

  /** With distinct keys a cursor continues right after its item. */
  lemma CursorContinues<T(!new)>(items: seq<T>, start: nat, limit: nat, key: T -> string, utf8: Utf8)
    requires utf8.Inverts() && DistinctKeys(items, key) && start <= |items|
    ensures GetPage(items, limit, CursorAt(items, start, key, utf8), key, utf8)
         == Ok(PageAt(items, start, limit, key, utf8))
  {
    if start > 0 {
      var value := key(items[start - 1]);
      CursorIsNotEmpty(value, utf8);
      AcceptedCursors(EncodeCursor(value, utf8), value, utf8);
      KeyIsFound(items, start - 1, key);
      hide EncodeCursor, DecodeCursor, DistinctKeys, FindKey, PageAt;
      assert DecodeCursor(CursorAt(items, start, key, utf8), utf8) == Ok(Some(value));
    }
  }

  lemma KeyIsFound<T(!new)>(items: seq<T>, i: nat, key: T -> string)
    requires DistinctKeys(items, key) && i < |items|
    ensures FindKey(items, key(items[i]), key) == i
  {
  }

  /** The second page is what the first one's cursor leads to. */
  predicate LeadsTo<T(==)>(first: Page<T>, second: Page<T>, items: seq<T>, limit: nat, key: T -> string, utf8: Utf8) {
    first.nextCursor.Some? && GetPage(items, limit, first.nextCursor, key, utf8) == Ok(second)
  }

  ghost predicate AreLinked<T(!new)>(pages: seq<Page<T>>, items: seq<T>, limit: nat, key: T -> string, utf8: Utf8) {
    forall i, j :: 0 <= i < j < |pages| && j == i + 1 ==> LeadsTo(pages[i], pages[j], items, limit, key, utf8)
  }

  /** Pages obtained by starting without a cursor and following the next cursor until there is none. */
  ghost predicate IsWalk<T(!new)>(pages: seq<Page<T>>, items: seq<T>, limit: nat, key: T -> string, utf8: Utf8) {
    && pages != [] && GetPage(items, limit, None, key, utf8) == Ok(pages[0])
    && pages[|pages| - 1].nextCursor == None
    && AreLinked(pages, items, limit, key, utf8)
  }

  /** Where the `k`-th page starts. */
  function Offset(k: nat, limit: nat): nat { if k == 0 then 0 else Offset(k - 1, limit) + limit }

  lemma {:induction false} OffsetIsProduct(k: nat, limit: nat)
    ensures Offset(k, limit) == k * limit
  {
    if k > 0 {
      OffsetIsProduct(k - 1, limit);
    }
  }

  /** The items of the first pages. */
  function Shown<T>(pages: seq<Page<T>>, count: nat): seq<T>
    requires count <= |pages|
  {
    if count == 0 then [] else Shown(pages, count - 1) + pages[count - 1].items
  }

  /** A page that has a cursor is full, and the cursor continues where the page ends. */
  lemma NextOfPage<T(!new)>(items: seq<T>, start: nat, limit: nat, key: T -> string, utf8: Utf8)
    requires start <= |items| && limit > 0
    ensures var page := PageAt(items, start, limit, key, utf8);
      && (page.nextCursor.Some? <==> start + limit < |items|)
      && (page.nextCursor.Some? ==>
          && page.nextCursor == CursorAt(items, start + limit, key, utf8)
          && items[..start] + page.items == items[..start + limit])
      && (page.nextCursor.None? ==> items[..start] + page.items == items)
  {
    var page := PageAt(items, start, limit, key, utf8);
    if start + limit < |items| {
      assert items[..start] + items[start..start + limit] == items[..start + limit];
    } else {
      assert page.items == items[start..];
      assert items[..start] + items[start..] == items;
    }
  }

  lemma NextPage<T(!new)>(items: seq<T>, start: nat, next: Page<T>, limit: nat, key: T -> string, utf8: Utf8)
    requires utf8.Inverts() && DistinctKeys(items, key) && limit > 0 && start <= |items|
    requires LeadsTo(PageAt(items, start, limit, key, utf8), next, items, limit, key, utf8)
    ensures start + limit < |items| && next == PageAt(items, start + limit, limit, key, utf8)
    ensures items[..start] + PageAt(items, start, limit, key, utf8).items == items[..start + limit]
  {
    hide DistinctKeys, GetPage, PageAt, CursorAt;
    NextOfPage(items, start, limit, key, utf8);
    CursorContinues(items, start + limit, limit, key, utf8);
  }

  /** The `k`-th page of a walk starts at `k * limit`, and before it everything up to there was shown. */
  lemma {:induction false} PageOfWalk<T(!new)>(
    pages: seq<Page<T>>, items: seq<T>, limit: nat, key: T -> string, utf8: Utf8, k: nat)
    requires utf8.Inverts() && DistinctKeys(items, key) && limit > 0
    requires IsWalk(pages, items, limit, key, utf8) && k < |pages|
    ensures Offset(k, limit) <= |items| && (k > 0 ==> Offset(k, limit) < |items|)
    ensures pages[k] == PageAt(items, Offset(k, limit), limit, key, utf8)
    ensures Shown(pages, k) == items[..Offset(k, limit)]
    decreases k
  {
    hide DistinctKeys, GetPage, PageAt;
    if k == 0 {
      CursorContinues(items, 0, limit, key, utf8);
    } else {
      PageOfWalk(pages, items, limit, key, utf8, k - 1);
      assert LeadsTo(pages[k - 1], pages[k], items, limit, key, utf8);
      hide IsWalk, LeadsTo;
      NextPage(items, Offset(k - 1, limit), pages[k], limit, key, utf8);
    }
  }

  /** Following cursors shows exactly the items, in order and once, in as few pages as the limit allows. */
  lemma WalkShowsAll<T(!new)>(pages: seq<Page<T>>, items: seq<T>, limit: nat, key: T -> string, utf8: Utf8)
    requires utf8.Inverts() && DistinctKeys(items, key) && limit > 0 && IsWalk(pages, items, limit, key, utf8)
    ensures Shown(pages, |pages|) == items
    ensures (|pages| - 1) * limit < |items| <= |pages| * limit || (items == [] && |pages| == 1)
  {
    var last := |pages| - 1;
    PageOfWalk(pages, items, limit, key, utf8, last);
    hide DistinctKeys, GetPage, PageAt, CursorAt, AreLinked;
    NextOfPage(items, Offset(last, limit), limit, key, utf8);
    OffsetIsProduct(last, limit);
    OffsetIsProduct(|pages|, limit);
  }

  /** From any position on there is such a walk: no cursor handed out is ever refused. */
  lemma {:induction false} WalkFrom<T(!new)>(items: seq<T>, start: nat, limit: nat, key: T -> string, utf8: Utf8)
    returns (pages: seq<Page<T>>)
    requires utf8.Inverts() && DistinctKeys(items, key) && limit > 0 && start <= |items|
    ensures pages != [] && pages[0] == PageAt(items, start, limit, key, utf8) && pages[|pages| - 1].nextCursor == None
    ensures AreLinked(pages, items, limit, key, utf8)
    decreases |items| - start
  {
    hide GetPage, DistinctKeys, PageAt, CursorAt;
    var first := PageAt(items, start, limit, key, utf8);
    NextOfPage(items, start, limit, key, utf8);
    if start + limit < |items| {
      var rest := WalkFrom(items, start + limit, limit, key, utf8);
      CursorContinues(items, start + limit, limit, key, utf8);
      assert LeadsTo(first, rest[0], items, limit, key, utf8);
      hide LeadsTo;
      pages := [first] + rest;
      forall i, j | 0 <= i < j < |pages| && j == i + 1 ensures LeadsTo(pages[i], pages[j], items, limit, key, utf8) {
        if i > 0 {
          assert pages[j] == rest[j - 1] && pages[i] == rest[i - 1];
        }
      }
    } else {
      pages := [first];
    }
  }

  lemma WalkExists<T(!new)>(items: seq<T>, limit: nat, key: T -> string, utf8: Utf8)
    requires utf8.Inverts() && DistinctKeys(items, key) && limit > 0
    ensures exists pages :: IsWalk(pages, items, limit, key, utf8)
  {
    CursorContinues(items, 0, limit, key, utf8);
    var pages := WalkFrom(items, 0, limit, key, utf8);
    assert IsWalk(pages, items, limit, key, utf8);
  }

  /** A well-formed cursor is refused as stale exactly when no item has its key any more. */
  lemma StaleExactlyWhenGone<T(!new)>(items: seq<T>, limit: nat, value: string, key: T -> string, utf8: Utf8)
    requires utf8.Inverts() && value != ""
    ensures GetPage(items, limit, Some(EncodeCursor(value, utf8)), key, utf8) == Err(StaleCursor) <==>
            forall i :: 0 <= i < |items| ==> key(items[i]) != value
  {
    CursorIsNotEmpty(value, utf8);
    AcceptedCursors(EncodeCursor(value, utf8), value, utf8);
    var k := FindKey(items, value, key);
  }
}

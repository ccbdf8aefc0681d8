/** One user's watchlist: the dict `st.session_state[activeUser]` that maps a
    ticker to its record, in insertion order, and the two operations that
    change it, `add_ticker` and `delete_ticker`. */
module Watchlist {
  import opened Common
  import opened Quote

  /** A record of the watchlist: column name to value, as the Python dict. */
  type Record = map<string, Cell>

  /** The eight columns `add_ticker` writes, and nothing else. */
  const RecordColumns: set<string> :=
    {"Company", "Price", "Price Change", "% Change", "Buy Target", "Sell Target", "Currency", "Last Update"}

  /** The dict as a value: its keys in iteration order, and its entries. */
  datatype Book = Book(order: seq<string>, entries: map<string, Record>)

  /** The invariant of a Python dict: every key once, in one position. */
  predicate WellFormed(b: Book)
  {
    && (forall i, j :: 0 <= i < j < |b.order| ==> b.order[i] != b.order[j])
    && (forall k :: k in b.entries ==> k in b.order)
    && (forall k :: k in b.order ==> k in b.entries)
  }

  function Get(b: Book, t: string): Option<Record>
  {
    if t in b.entries then Some(b.entries[t]) else None
  }

  /** `d[t] = rec`: an existing key keeps its place, a new key goes last. */
  function Put(b: Book, t: string, rec: Record): Book
  {
    Book(if t in b.entries then b.order else b.order + [t], b.entries[t := rec])
  }

  /** `s` with every occurrence of `t` dropped. */
  function Without(s: seq<string>, t: string): seq<string>
  {
    if s == [] then []
    else if s[0] == t then Without(s[1..], t)
    else [s[0]] + Without(s[1..], t)
  }

  /** `del d[t]` on a dict that holds `t`. */
  function Remove(b: Book, t: string): Book
  {
    Book(Without(b.order, t), b.entries - {t})
  }

  /** The record `add_ticker` builds from the two parsed targets, the quote
      response and the clock reading `now`. */
  function NewRecord(ticker: string, buy: real, sell: real, resp: Response, now: string): (rec: Record)
    ensures rec.Keys == RecordColumns
    ensures rec["Buy Target"] == Num(buy) && rec["Sell Target"] == Num(sell)
    ensures rec["Company"] == CompanyName(ticker, resp)
    ensures rec["Price"] == FieldValue(ticker, resp, "regularMarketPrice")
    ensures rec["Price Change"] == FieldValue(ticker, resp, "regularMarketChange")
    ensures rec["% Change"] == FieldValue(ticker, resp, "regularMarketChangePercent")
    ensures rec["Currency"] == FieldValue(ticker, resp, "currency")
    ensures rec["Last Update"] == Text(now)
  {
    map[
      "Company" := CompanyName(ticker, resp),
      "Price" := FieldValue(ticker, resp, "regularMarketPrice"),
      "Price Change" := FieldValue(ticker, resp, "regularMarketChange"),
      "% Change" := FieldValue(ticker, resp, "regularMarketChangePercent"),
      "Buy Target" := Num(buy),
      "Sell Target" := Num(sell),
      "Currency" := FieldValue(ticker, resp, "currency"),
      "Last Update" := Text(now)
    ]
  }

  /** What `add_ticker`, `delete_ticker` and `checkAlerts` can raise. */
  datatype EngineError =
    | BuyTargetNotNumber   // float() of the buy target text raised ValueError
    | SellTargetNotNumber  // float() of the sell target text raised ValueError
    | KeyError(key: string) // a key the dict, or a column the table, does not hold

  lemma {:induction false} WithoutMembers(s: seq<string>, t: string, x: string)
    ensures x in Without(s, t) <==> x in s && x != t
  {
    if s != [] {
      WithoutMembers(s[1..], t, x);
    }
  }

  lemma {:induction false} WithoutDistinct(s: seq<string>, t: string)
    requires forall i, j :: 0 <= i < j < |s| ==> s[i] != s[j]
    ensures var w := Without(s, t);
            forall i, j :: 0 <= i < j < |w| ==> w[i] != w[j]
  {
    if s != [] {
      WithoutDistinct(s[1..], t);
      var w' := Without(s[1..], t);
      if s[0] != t {
        var w := Without(s, t);
        assert w == [s[0]] + w';
        forall j | 0 < j < |w| ensures w[j] != s[0] {
          assert w[j] == w'[j - 1];
          WithoutMembers(s[1..], t, w'[j - 1]);
        }
      }
    }
  }

  lemma {:induction false} WithoutAbsent(s: seq<string>, t: string)
    requires t !in s
    ensures Without(s, t) == s
  {
    if s != [] {
      WithoutAbsent(s[1..], t);
    }
  }

  lemma {:induction false} WithoutAppend(s: seq<string>, u: seq<string>, t: string)
    ensures Without(s + u, t) == Without(s, t) + Without(u, t)
  {
    if s != [] {
      assert (s + u)[1..] == s[1..] + u;
      WithoutAppend(s[1..], u, t);
    } else {
      assert s + u == u;
    }
  }

  /** Removing the one occurrence of `t` from the distinct keys shortens them by one. */
  lemma {:induction false} WithoutLength(s: seq<string>, t: string)
    requires forall i, j :: 0 <= i < j < |s| ==> s[i] != s[j]
    requires t in s
    ensures |Without(s, t)| == |s| - 1
  {
    if s[0] == t {
      assert t !in s[1..];
      WithoutAbsent(s[1..], t);
    } else {
      WithoutLength(s[1..], t);
    }
  }

  /** add overwrites: the ticker maps to exactly the new record, every other
      ticker keeps its record, a present ticker keeps its position and a new
      one is appended last; the dict stays a dict. */
  lemma PutSpec(b: Book, t: string, rec: Record)
    requires WellFormed(b)
    ensures WellFormed(Put(b, t, rec))
    ensures Get(Put(b, t, rec), t) == Some(rec)
    ensures forall k :: k != t ==> Get(Put(b, t, rec), k) == Get(b, k)
    ensures t in b.entries ==> Put(b, t, rec).order == b.order
    ensures t !in b.entries ==> Put(b, t, rec).order == b.order + [t]
  {
  }

  /** The record `add_ticker` stores holds the submitted targets and no field
      of whatever record the ticker had before. */
  lemma AddOverwrites(b: Book, t: string, buy: real, sell: real, resp: Response, now: string)
    requires WellFormed(b)
    ensures var r := Get(Put(b, t, NewRecord(t, buy, sell, resp, now)), t);
            && r.Some?
            && r.value.Keys == RecordColumns
            && r.value["Buy Target"] == Num(buy)
            && r.value["Sell Target"] == Num(sell)
  {
  }

  /** delete removes exactly one key: the ticker is gone, every other ticker
      keeps its record and the remaining keys keep their order. */
  lemma RemoveSpec(b: Book, t: string)
    requires WellFormed(b) && t in b.entries
    ensures WellFormed(Remove(b, t))
    ensures Get(Remove(b, t), t) == None
    ensures forall k :: k != t ==> Get(Remove(b, t), k) == Get(b, k)
    ensures Remove(b, t).order == Without(b.order, t)
    ensures |Remove(b, t).order| == |b.order| - 1
  {
    WithoutDistinct(b.order, t);
    forall x ensures x in Remove(b, t).entries <==> x in Remove(b, t).order {
      WithoutMembers(b.order, t, x);
    }
    WithoutLength(b.order, t);
  }

  /** Adding a new ticker and deleting it again gives back the dict. */
  lemma PutRemoveRoundTrip(b: Book, t: string, rec: Record)
    requires WellFormed(b) && t !in b.entries
    ensures Remove(Put(b, t, rec), t) == b
  {
    WithoutAppend(b.order, [t], t);
    WithoutAbsent(b.order, t);
    assert Without([t], t) == [];
    assert b.entries[t := rec] - {t} == b.entries;
  }

  /** Deleting a ticker and adding it again moves it to the end of the order. */
  lemma RemovePutMovesLast(b: Book, t: string, rec: Record)
    requires WellFormed(b) && t in b.entries
    ensures Put(Remove(b, t), t, rec).order == Without(b.order, t) + [t]
    ensures Get(Put(Remove(b, t), t, rec), t) == Some(rec)
  {
  }

  /** One priced table row: the ticker (the `index` column) and the three
      numbers the highlight and the alerts compare. */
  datatype Row = Row(ticker: string, price: real, buyTarget: real, sellTarget: real)

  /** The three compared columns hold numbers. */
  predicate Priced(rec: Record)
  {
    && "Price" in rec && rec["Price"].Num?
    && "Buy Target" in rec && rec["Buy Target"].Num?
    && "Sell Target" in rec && rec["Sell Target"].Num?
  }

  predicate AllPriced(b: Book)
  {
    forall k :: k in b.order ==> k in b.entries && Priced(b.entries[k])
  }

  function RowOf(t: string, rec: Record): Row
    requires Priced(rec)
  {
    Row(t, rec["Price"].x, rec["Buy Target"].x, rec["Sell Target"].x)
  }

  /** `pd.DataFrame.from_dict(d, orient='index').reset_index()`, restricted
      to the compared columns: one row per key, in the dict's order. */
  function TableRows(b: Book): (rows: seq<Row>)
    requires AllPriced(b)
    ensures |rows| == |b.order|
    ensures forall i :: 0 <= i < |rows| ==>
              rows[i].ticker == b.order[i] &&
              Num(rows[i].price) == b.entries[b.order[i]]["Price"] &&
              Num(rows[i].buyTarget) == b.entries[b.order[i]]["Buy Target"] &&
              Num(rows[i].sellTarget) == b.entries[b.order[i]]["Sell Target"]
  {
    seq(|b.order|, i requires 0 <= i < |b.order| => RowOf(b.order[i], b.entries[b.order[i]]))
  }

  /** A newly added ticker appears as the last row; the rows before it are
      unchanged. */
  lemma PutNewRowLast(b: Book, t: string, rec: Record)
    requires WellFormed(b) && AllPriced(b) && t !in b.entries && Priced(rec)
    ensures AllPriced(Put(b, t, rec))
    ensures TableRows(Put(b, t, rec)) == TableRows(b) + [RowOf(t, rec)]
  {
  }

  /** Re-adding a present ticker replaces its row in place. */
  lemma PutExistingRowInPlace(b: Book, t: string, rec: Record, i: nat)
    requires WellFormed(b) && AllPriced(b) && Priced(rec)
    requires i < |b.order| && b.order[i] == t
    ensures AllPriced(Put(b, t, rec))
    ensures TableRows(Put(b, t, rec)) == TableRows(b)[i := RowOf(t, rec)]
  {
  }

  /** The user's dict in the session state. */
  class Watchlist {
    var order: seq<string>
    var entries: map<string, Record>

    ghost predicate Valid()
      reads this
    {
      WellFormed(Book(order, entries))
    }

    function Contents(): Book
      reads this
    {
      Book(order, entries)
    }

    /** A watchlist as loaded from the sheet or the dummy list. */
    constructor (initial: Book)
      requires WellFormed(initial)
      ensures Valid() && Contents() == initial
    {
      order := initial.order;
      entries := initial.entries;
    }

    /** `add_ticker`: parse both targets (`None` is text `float()` rejects),
        look up the quote fields and store the new record under `ticker`. */
    method AddTicker(ticker: string, buyInput: Option<real>, sellInput: Option<real>, resp: Response, now: string)
      returns (res: Outcome<EngineError>)
      requires Valid()
      modifies this
      ensures Valid()
      ensures buyInput.None? ==> res == Fail(BuyTargetNotNumber) && Contents() == old(Contents())
      ensures buyInput.Some? && sellInput.None? ==>
                res == Fail(SellTargetNotNumber) && Contents() == old(Contents())
      ensures buyInput.Some? && sellInput.Some? ==>
                res == Pass &&
                Contents() == Put(old(Contents()), ticker,
                                  NewRecord(ticker, buyInput.value, sellInput.value, resp, now))
    {
      if buyInput.None? {
        return Fail(BuyTargetNotNumber);
      }
      if sellInput.None? {
        return Fail(SellTargetNotNumber);
      }
      var rec := NewRecord(ticker, buyInput.value, sellInput.value, resp, now);
      PutSpec(Contents(), ticker, rec);
      if ticker !in entries {
        order := order + [ticker];
      }
      entries := entries[ticker := rec];
      res := Pass;
    }

    /** `delete_ticker`: `del d[ticker]`, a KeyError when it is absent. */
    method DeleteTicker(ticker: string) returns (res: Outcome<EngineError>)
      requires Valid()
      modifies this
      ensures Valid()
      ensures ticker !in old(entries) ==> res == Fail(KeyError(ticker)) && Contents() == old(Contents())
      ensures ticker in old(entries) ==> res == Pass && Contents() == Remove(old(Contents()), ticker)
    {
      if ticker !in entries {
        return Fail(KeyError(ticker));
      }
      RemoveSpec(Contents(), ticker);
      order := Without(order, ticker);
      entries := entries - {ticker};
      res := Pass;
    }
  }
}

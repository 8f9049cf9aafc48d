/**
 * Shared vocabulary of the model: an Option type, the unit of time, and the
 * three query shapes the application runs against its tables through the ORM:
 * counting the rows that match a filter (`.count()`, `len([...])`, `sum(...)`),
 * keeping only the rows that match (`filter_by(...).delete()` keeps the
 * complement), and taking the first row that matches (`.first()`, `next(...)`,
 * `session.get`).
 */
module Base {

  datatype Option<+T> = None | Some(value: T)

  /** How a Python call ends: with the value it returns, or with an exception it lets escape. */
  datatype Issue<+T> = Rend(valeur: T) | Exception

  /** Time is an integer number of seconds; `timedelta(days=n)` is `n * Jour`. */
  const Jour: int := 86400

  /** Number of rows of `s` that satisfy `p`. */
  function Compter<T>(s: seq<T>, p: T -> bool): nat
  {
    if |s| == 0 then 0 else Compter(s[..|s| - 1], p) + (if p(s[|s| - 1]) then 1 else 0)
  }

  /** The positions of the rows of `s` that satisfy `p`: an independent description of a count. */
  ghost function Positions<T>(s: seq<T>, p: T -> bool): set<nat>
  {
    set i: nat | i < |s| && p(s[i])
  }

  /** The rows of `s` that satisfy `p`, in their original order. */
  function Filtrer<T>(s: seq<T>, p: T -> bool): seq<T>
  {
    if |s| == 0 then [] else Filtrer(s[..|s| - 1], p) + (if p(s[|s| - 1]) then [s[|s| - 1]] else [])
  }

  /** Index of the first row of `s` that satisfies `p`, if any. */
  function Premier<T>(s: seq<T>, p: T -> bool): (r: Option<nat>)
    ensures r.Some? ==> r.value < |s| && p(s[r.value])
    ensures r.Some? ==> forall j :: 0 <= j < r.value ==> !p(s[j])
    ensures r.None? ==> forall j :: 0 <= j < |s| ==> !p(s[j])
  {
    if |s| == 0 then None
    else
      var m := Premier(s[..|s| - 1], p);
      if m.Some? then m else if p(s[|s| - 1]) then Some(|s| - 1) else None
  }

  /**
   * Rows are listed in strictly increasing order of `cle` (the primary key):
   * each row's key exceeds the key of the row before it.
   */
  ghost predicate Croissant<T>(s: seq<T>, cle: T -> int)
    decreases |s|
  {
    |s| <= 1 || (Croissant(s[..|s| - 1], cle) && cle(s[|s| - 2]) < cle(s[|s| - 1]))
  }

  /** Increasing from each row to the next is increasing between any two rows. */
  lemma {:induction false} CroissantPaires<T>(s: seq<T>, cle: T -> int)
    requires Croissant(s, cle)
    ensures forall i, j :: 0 <= i < j < |s| ==> cle(s[i]) < cle(s[j])
  {
    if |s| > 1 {
      var n := |s| - 1;
      CroissantPaires(s[..n], cle);
      forall i, j | 0 <= i < j < |s| ensures cle(s[i]) < cle(s[j]) {
        assert s[i] == s[..n][i];
        if j < n {
          assert s[j] == s[..n][j];
        } else if i < n - 1 {
          assert s[n - 1] == s[..n][n - 1];
        }
      }
    }
  }

  /** Conversely, keys increasing between any two rows are increasing row by row. */
  lemma {:induction false} PairesCroissant<T>(s: seq<T>, cle: T -> int)
    requires forall i, j :: 0 <= i < j < |s| ==> cle(s[i]) < cle(s[j])
    ensures Croissant(s, cle)
  {
    if |s| > 1 {
      var n := |s| - 1;
      forall i, j | 0 <= i < j < n ensures cle(s[..n][i]) < cle(s[..n][j]) {
        assert s[..n][i] == s[i] && s[..n][j] == s[j];
      }
      PairesCroissant(s[..n], cle);
    }
  }

  lemma CompterAjout<T>(s: seq<T>, x: T, p: T -> bool)
    ensures Compter(s + [x], p) == Compter(s, p) + (if p(x) then 1 else 0)
  {
    assert (s + [x])[..|s|] == s;
  }

  /** The count agrees with the number of matching positions. */
  lemma {:induction false} CompterPositions<T>(s: seq<T>, p: T -> bool)
    ensures Compter(s, p) == |Positions(s, p)|
  {
    if |s| > 0 {
      var n := |s| - 1;
      CompterPositions(s[..n], p);
      if p(s[n]) {
        assert Positions(s, p) == Positions(s[..n], p) + {n};
      } else {
        assert Positions(s, p) == Positions(s[..n], p);
      }
    }
  }

  /** A count is zero exactly when no row matches. */
  lemma {:induction false} CompterNul<T>(s: seq<T>, p: T -> bool)
    ensures Compter(s, p) == 0 <==> forall i :: 0 <= i < |s| ==> !p(s[i])
  {
    if |s| > 0 {
      CompterNul(s[..|s| - 1], p);
    }
  }

  /** Replacing one row changes the count by what the old and the new row contribute. */
  lemma {:induction false} CompterRemplace<T>(s: seq<T>, k: nat, v: T, p: T -> bool)
    requires k < |s|
    ensures Compter(s[k := v], p) + (if p(s[k]) then 1 else 0)
         == Compter(s, p) + (if p(v) then 1 else 0)
  {
    var n := |s| - 1;
    if k < n {
      assert s[k := v][..n] == s[..n][k := v];
      CompterRemplace(s[..n], k, v, p);
    } else {
      assert s[k := v][..n] == s[..n];
    }
  }

  /** Counting a narrower filter never gives more; when the counts are equal the filters agree on `s`. */
  lemma {:induction false} CompterPlusEtroit<T>(s: seq<T>, large: T -> bool, etroit: T -> bool)
    requires forall x :: etroit(x) ==> large(x)
    ensures Compter(s, etroit) <= Compter(s, large)
    ensures Compter(s, etroit) == Compter(s, large) <==>
              forall i :: 0 <= i < |s| && large(s[i]) ==> etroit(s[i])
  {
    if |s| > 0 {
      CompterPlusEtroit(s[..|s| - 1], large, etroit);
    }
  }

  /** A row is kept by the filter exactly when it was there and matches. */
  lemma {:induction false} FiltrerContient<T>(s: seq<T>, p: T -> bool, x: T)
    ensures x in Filtrer(s, p) <==> x in s && p(x)
  {
    if |s| > 0 {
      var n := |s| - 1;
      FiltrerContient(s[..n], p, x);
      assert s == s[..n] + [s[n]];
    }
  }

  /** Filtering can only lower any count. */
  lemma {:induction false} CompterFiltrer<T>(s: seq<T>, p: T -> bool, q: T -> bool)
    ensures Compter(Filtrer(s, p), q) <= Compter(s, q)
  {
    if |s| > 0 {
      var n := |s| - 1;
      CompterFiltrer(s[..n], p, q);
      if p(s[n]) {
        CompterAjout(Filtrer(s[..n], p), s[n], q);
      } else {
        assert Filtrer(s, p) == Filtrer(s[..n], p);
      }
    }
  }

  /** Filtering keeps rows in key order. */
  lemma {:induction false} FiltrerCroissant<T>(s: seq<T>, p: T -> bool, cle: T -> int)
    requires Croissant(s, cle)
    ensures Croissant(Filtrer(s, p), cle)
  {
    if |s| > 0 {
      var n := |s| - 1;
      var f := Filtrer(s[..n], p);
      FiltrerCroissant(s[..n], p, cle);
      if !p(s[n]) {
        assert Filtrer(s, p) == f + [] == f;
      } else if |f| > 0 {
        CroissantPaires(s, cle);
        FiltrerContient(s[..n], p, f[|f| - 1]);
        var k :| 0 <= k < n && s[..n][k] == f[|f| - 1];
        assert cle(s[k]) < cle(s[n]);
        assert (f + [s[n]])[..|f|] == f;
      }
    }
  }

  /** The set of primary keys present in a table. */
  ghost function Cles<T>(s: seq<T>, cle: T -> int): set<int>
  {
    set x | x in s :: cle(x)
  }

  /**
   * The key SQLite gives the next row of a table whose `INTEGER PRIMARY KEY`
   * is the rowid (no `AUTOINCREMENT`): one more than the largest key present,
   * 1 for an empty table. With keys increasing in row order the largest is
   * the last row's, so the key of a deleted newest row is handed out again.
   */
  function ProchaineCle<T>(s: seq<T>, cle: T -> int): int
  {
    if |s| == 0 then 1 else cle(s[|s| - 1]) + 1
  }

  /**
   * The keys of a table as a rowid primary key leaves them: positive and
   * strictly increasing in row order.
   */
  ghost predicate ClesValides<T>(s: seq<T>, cle: T -> int)
  {
    Croissant(s, cle) && (|s| > 0 ==> 1 <= cle(s[0]))
  }

  /** Every key of a table with valid keys is positive and below the next key. */
  lemma ClesBornees<T>(s: seq<T>, cle: T -> int)
    requires ClesValides(s, cle)
    ensures 1 <= ProchaineCle(s, cle)
    ensures forall i :: 0 <= i < |s| ==> 1 <= cle(s[i]) < ProchaineCle(s, cle)
  {
    CroissantPaires(s, cle);
  }

  /** The filter that `session.get(Model, id)` applies. */
  function AvecCle<T>(cle: T -> int, id: int): T -> bool
  {
    (x: T) => cle(x) == id
  }

  /** In a table with increasing keys, the row carrying a key is the first one found for it. */
  lemma PremierCleUnique<T>(s: seq<T>, cle: T -> int, k: nat)
    requires Croissant(s, cle) && k < |s|
    ensures Premier(s, AvecCle(cle, cle(s[k]))) == Some(k)
  {
    CroissantPaires(s, cle);
  }

  lemma ClesAjout<T>(s: seq<T>, cle: T -> int, x: T)
    requires ClesValides(s, cle) && cle(x) == ProchaineCle(s, cle)
    ensures ClesValides(s + [x], cle)
    ensures Cles(s + [x], cle) == Cles(s, cle) + {cle(x)}
    ensures ProchaineCle(s + [x], cle) == cle(x) + 1
  {
    assert forall y :: y in s + [x] <==> y in s || y == x;
  }

  lemma ClesRemplace<T>(s: seq<T>, cle: T -> int, k: nat, v: T)
    requires ClesValides(s, cle) && k < |s| && cle(v) == cle(s[k])
    ensures ClesValides(s[k := v], cle)
    ensures Cles(s[k := v], cle) == Cles(s, cle)
    ensures ProchaineCle(s[k := v], cle) == ProchaineCle(s, cle)
  {
    var t := s[k := v];
    CroissantPaires(s, cle);
    forall i, j | 0 <= i < j < |t| ensures cle(t[i]) < cle(t[j]) {
      assert cle(t[i]) == cle(s[i]) && cle(t[j]) == cle(s[j]);
    }
    PairesCroissant(t, cle);
    forall y | y in Cles(s, cle) ensures y in Cles(t, cle)
    {
      var x :| x in s && cle(x) == y;
      var i :| 0 <= i < |s| && s[i] == x;
      assert cle(t[i]) == y;
    }
    forall y | y in Cles(t, cle) ensures y in Cles(s, cle)
    {
      var x :| x in t && cle(x) == y;
      var i :| 0 <= i < |t| && t[i] == x;
      assert cle(s[i]) == y;
    }
  }

  /**
   * Deleting rows keeps the keys valid, with the next key recomputed from the
   * rows left (never above the one before), and loses only the keys of
   * deleted rows.
   */
  lemma ClesFiltrer<T>(s: seq<T>, cle: T -> int, p: T -> bool)
    requires ClesValides(s, cle)
    ensures ClesValides(Filtrer(s, p), cle)
    ensures ProchaineCle(Filtrer(s, p), cle) <= ProchaineCle(s, cle)
    ensures forall x :: x in s && p(x) ==> cle(x) in Cles(Filtrer(s, p), cle)
  {
    var f := Filtrer(s, p);
    FiltrerCroissant(s, p, cle);
    ClesBornees(s, cle);
    forall i | 0 <= i < |f| ensures 1 <= cle(f[i]) < ProchaineCle(s, cle)
    {
      FiltrerContient(s, p, f[i]);
      var j :| 0 <= j < |s| && s[j] == f[i];
    }
    forall x | x in s && p(x) ensures cle(x) in Cles(f, cle)
    {
      FiltrerContient(s, p, x);
    }
  }

  /** A filter every row passes keeps the table as it is. */
  lemma {:induction false} FiltrerTout<T>(s: seq<T>, p: T -> bool)
    requires forall i :: 0 <= i < |s| ==> p(s[i])
    ensures Filtrer(s, p) == s
  {
    if |s| > 0 {
      FiltrerTout(s[..|s| - 1], p);
      assert s[..|s| - 1] + [s[|s| - 1]] == s;
    }
  }

  /**
   * Deleting the newest row gives its key back: the next key becomes one
   * more than the key of the row before it, so when keys are consecutive
   * the deleted key is the one handed out next.
   */
  lemma CleReutilisee<T>(s: seq<T>, cle: T -> int)
    requires ClesValides(s, cle) && |s| > 0
    ensures Filtrer(s, Sauf(cle, cle(s[|s| - 1]))) == s[..|s| - 1]
    ensures ProchaineCle(s[..|s| - 1], cle) == (if |s| == 1 then 1 else cle(s[|s| - 2]) + 1)
    ensures ProchaineCle(s[..|s| - 1], cle) <= cle(s[|s| - 1])
  {
    FiltrerSansDernier(s, cle);
    DerniereCleMax(s, cle);
  }

  /** With increasing keys, deleting the row with the last key removes exactly the last row. */
  lemma FiltrerSansDernier<T>(s: seq<T>, cle: T -> int)
    requires Croissant(s, cle) && |s| > 0
    ensures Filtrer(s, Sauf(cle, cle(s[|s| - 1]))) == s[..|s| - 1]
  {
    var n := |s| - 1;
    var p := Sauf(cle, cle(s[n]));
    DerniereCleMax(s, cle);
    forall i | 0 <= i < n ensures p(s[..n][i]) {
      assert s[..n][i] == s[i];
    }
    FiltrerTout(s[..n], p);
    assert !p(s[n]);
    assert Filtrer(s, p) == Filtrer(s[..n], p) + [] == s[..n];
  }

  /** With increasing keys, the last row's key exceeds every other key. */
  lemma DerniereCleMax<T>(s: seq<T>, cle: T -> int)
    requires Croissant(s, cle) && |s| > 0
    ensures forall i :: 0 <= i < |s| - 1 ==> cle(s[i]) < cle(s[|s| - 1])
  {
    CroissantPaires(s, cle);
  }

  /** The rows whose foreign key `cle` is not `id`: what survives `filter_by(...=id).delete()`. */
  function Sauf<T>(cle: T -> int, id: int): T -> bool
  {
    (x: T) => cle(x) != id
  }

  /** A key is present exactly when looking it up finds a row. */
  lemma PremierCle<T>(s: seq<T>, cle: T -> int, id: int)
    ensures id in Cles(s, cle) <==> Premier(s, AvecCle(cle, id)).Some?
  {
    var r := Premier(s, AvecCle(cle, id));
    if r.Some? {
      assert s[r.value] in s;
    }
    if id in Cles(s, cle) {
      var x :| x in s && cle(x) == id;
      var i :| 0 <= i < |s| && s[i] == x;
      assert AvecCle(cle, id)(s[i]);
    }
  }
}

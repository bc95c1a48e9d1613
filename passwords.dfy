/**
 * The candidate password list: the values of the cells of column A of the
 * active worksheet, keeping only truthy values, each converted with `str`,
 * in worksheet order.
 */
module Passwords {
  import opened Text

  /**
   * A cell value as the spreadsheet reader returns it. Floats and dates are
   * kept abstract: their `str` rendering and their truthiness are given.
   */
  datatype CellValue =
    | Blank
    | Str(s: string)
    | Int(i: int)
    | Bool(b: bool)
    | Other(shown: string, truthy: bool)

  /**
   * Python truthiness of a cell value: `None`, the empty string, zero and
   * `False` are the falsy values; a float or date carries its own.
   */
  predicate Truthy(v: CellValue)
    ensures Truthy(v) <==> !(v in {Blank, Str(""), Int(0), Bool(false)} || (v.Other? && !v.truthy))
  {
    match v
    case Blank => false
    case Str(s) => s != ""
    case Int(i) => i != 0
    case Bool(b) => b
    case Other(_, t) => t
  }

  /**
   * `str(v)`: a truthy string, integer or boolean never renders as the empty
   * password, and a falsy one renders as one of Python's falsy spellings.
   */
  function Render(v: CellValue): (r: string)
    ensures Truthy(v) && !v.Other? ==> r != ""
    ensures !Truthy(v) && !v.Other? ==> r in {"None", "", "0", "False"}
  {
    match v
    case Blank => "None"
    case Str(s) => s
    case Int(i) => IntToString(i)
    case Bool(b) => if b then "True" else "False"
    case Other(shown, _) => shown
  }

  /** `[str(cell.value) for cell in column if cell.value]`. */
  function PasswordList(cells: seq<CellValue>): (r: seq<string>)
    ensures |r| <= |cells|
  {
    if cells == [] then []
    else (if Truthy(cells[0]) then [Render(cells[0])] else []) + PasswordList(cells[1..])
  }

  /** Number of truthy cells. */
  function TruthyCount(cells: seq<CellValue>): nat {
    if cells == [] then 0 else (if Truthy(cells[0]) then 1 else 0) + TruthyCount(cells[1..])
  }

  /** The list of a split column is the list of the top part followed by that of the bottom part. */
  lemma {:induction false} PasswordListAppend(a: seq<CellValue>, b: seq<CellValue>)
    ensures PasswordList(a + b) == PasswordList(a) + PasswordList(b)
  {
    if a == [] {
      assert a + b == b;
    } else {
      var h := if Truthy(a[0]) then [Render(a[0])] else [];
      assert (a + b)[0] == a[0] && (a + b)[1..] == a[1..] + b;
      PasswordListAppend(a[1..], b);
      calc {
        PasswordList(a + b);
        h + PasswordList(a[1..] + b);
        h + (PasswordList(a[1..]) + PasswordList(b));
        (h + PasswordList(a[1..])) + PasswordList(b);
      }
    }
  }

  /** One password per truthy cell, no more. */
  lemma {:induction false} PasswordListLength(cells: seq<CellValue>)
    ensures |PasswordList(cells)| == TruthyCount(cells)
  {
    if cells != [] {
      PasswordListLength(cells[1..]);
    }
  }

  /**
   * Every truthy cell lands, rendered, at the position given by the number of
   * truthy cells above it; so order is kept and nothing truthy is dropped.
   */
  lemma {:induction false} PasswordListAt(cells: seq<CellValue>, j: nat)
    requires j < |cells| && Truthy(cells[j])
    ensures TruthyCount(cells[..j]) < |PasswordList(cells)|
    ensures PasswordList(cells)[TruthyCount(cells[..j])] == Render(cells[j])
  {
    PasswordListLength(cells);
    if j > 0 {
      PasswordListAt(cells[1..], j - 1);
      assert cells[..j][1..] == cells[1..][..j - 1];
      assert cells[..j][0] == cells[0];
    }
  }

  /** Every password comes from a truthy cell, the k-th one from the top. */
  lemma {:induction false} PasswordListOrigin(cells: seq<CellValue>, k: nat)
    requires k < |PasswordList(cells)|
    ensures exists j :: 0 <= j < |cells| && Truthy(cells[j]) && TruthyCount(cells[..j]) == k
                        && PasswordList(cells)[k] == Render(cells[j])
  {
    var rest := PasswordList(cells[1..]);
    if Truthy(cells[0]) && k == 0 {
      assert cells[..0] == [];
    } else {
      var k' := if Truthy(cells[0]) then k - 1 else k;
      PasswordListOrigin(cells[1..], k');
      var j :| 0 <= j < |cells[1..]| && Truthy(cells[1..][j]) && TruthyCount(cells[1..][..j]) == k'
               && rest[k'] == Render(cells[1..][j]);
      assert cells[..j + 1][1..] == cells[1..][..j];
      assert cells[..j + 1][0] == cells[0];
      assert TruthyCount(cells[..j + 1]) == k;
    }
  }
}

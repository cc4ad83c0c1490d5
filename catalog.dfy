/**
 * The reference listings and the dropdown catalog derived from them (the `/options`
 * handler): sorted distinct companies, the models seen with each company, the years
 * and the fuel types.
 */
module DropdownCatalog {
  import opened Ordering
  import opened SortedSeqs

  /** One row of the cleaned listing data set. */
  datatype Record = Record(company: string, name: string, year: int, fuelType: string)

  datatype Catalog = Catalog(
    companies: seq<string>,
    modelsByCompany: map<string, seq<string>>,
    years: seq<int>,
    fuelTypes: seq<string>)

  /** Some row of `data` lists company `co`. */
  ghost predicate HasCompany(data: seq<Record>, co: string) {
    exists r :: r in data && r.company == co
  }

  /** Some row of `data` lists model `n` of company `co`. */
  ghost predicate HasModel(data: seq<Record>, co: string, n: string) {
    exists r :: r in data && r.company == co && r.name == n
  }

  /** Some row of `data` has year `y`. */
  ghost predicate HasYear(data: seq<Record>, y: int) {
    exists r :: r in data && r.year == y
  }

  /** Some row of `data` has fuel type `ft`. */
  ghost predicate HasFuelType(data: seq<Record>, ft: string) {
    exists r :: r in data && r.fuelType == ft
  }

  /** The column `f` of the data frame, row by row. */
  function Column<T>(data: seq<Record>, f: Record -> T): (col: seq<T>)
    ensures |col| == |data|
    ensures forall i :: 0 <= i < |data| ==> col[i] == f(data[i])
  {
    if |data| == 0 then [] else [f(data[0])] + Column(data[1..], f)
  }

  /** A value occurs in a column exactly when some row carries it. */
  lemma ColumnMembers<T>(data: seq<Record>, f: Record -> T, x: T)
    ensures x in Column(data, f) <==> exists r :: r in data && f(r) == x
  {
  }

  /** The rows whose company is `company`, each kept as often as it occurs. */
  function RowsOf(data: seq<Record>, company: string): (rows: seq<Record>)
    ensures forall r :: r in rows <==> r in data && r.company == company
    ensures multiset(rows) <= multiset(data)
  {
    if |data| == 0 then []
    else
      assert data == [data[0]] + data[1..];
      assert forall r :: r in data <==> r == data[0] || r in data[1..];
      (if data[0].company == company then [data[0]] else []) + RowsOf(data[1..], company)
  }

  /** The distinct companies of the rows, in ascending order. */
  function Companies(data: seq<Record>): (cs: seq<string>)
    ensures Increasing(StrLess, cs)
    ensures forall co :: co in cs <==> HasCompany(data, co)
  {
    StrLessIsStrictTotalOrder();
    var f := (r: Record) => r.company;
    var cs := SortedUnique(StrLess, Column(data, f));
    assert forall co :: co in cs <==> HasCompany(data, co) by {
      forall co ensures co in cs <==> exists r :: r in data && f(r) == co {
        ColumnMembers(data, f, co);
      }
    }
    cs
  }

  /** The distinct model names of the rows of one company, in ascending order. */
  function ModelsOf(data: seq<Record>, company: string): (ms: seq<string>)
    ensures Increasing(StrLess, ms)
    ensures forall n :: n in ms <==> HasModel(data, company, n)
  {
    StrLessIsStrictTotalOrder();
    var f := (r: Record) => r.name;
    var rows := RowsOf(data, company);
    var ms := SortedUnique(StrLess, Column(rows, f));
    assert forall n :: n in ms <==> HasModel(data, company, n) by {
      forall n ensures n in ms <==> exists r :: r in rows && f(r) == n {
        ColumnMembers(rows, f, n);
      }
    }
    ms
  }

  /** The distinct years of the rows, in ascending order; years are integers already, so converting them changes nothing. */
  function Years(data: seq<Record>): (ys: seq<int>)
    ensures Increasing(IntLess, ys)
    ensures forall y :: y in ys <==> HasYear(data, y)
  {
    IntLessIsStrictTotalOrder();
    var f := (r: Record) => r.year;
    var ys := SortedUnique(IntLess, Column(data, f));
    assert forall y :: y in ys <==> HasYear(data, y) by {
      forall y ensures y in ys <==> exists r :: r in data && f(r) == y {
        ColumnMembers(data, f, y);
      }
    }
    ys
  }

  /** The distinct fuel types of the rows, in ascending order. */
  function FuelTypes(data: seq<Record>): (fs: seq<string>)
    ensures Increasing(StrLess, fs)
    ensures forall ft :: ft in fs <==> HasFuelType(data, ft)
  {
    StrLessIsStrictTotalOrder();
    var f := (r: Record) => r.fuelType;
    var fs := SortedUnique(StrLess, Column(data, f));
    assert forall ft :: ft in fs <==> HasFuelType(data, ft) by {
      forall ft ensures ft in fs <==> exists r :: r in data && f(r) == ft {
        ColumnMembers(data, f, ft);
      }
    }
    fs
  }

  /** The four selection lists of the `/options` response. */
  function BuildCatalog(data: seq<Record>): (c: Catalog)
    ensures Increasing(StrLess, c.companies)
    ensures forall co :: co in c.companies <==> HasCompany(data, co)
    ensures forall co :: co in c.modelsByCompany <==> co in c.companies
    ensures forall co :: co in c.modelsByCompany ==> Increasing(StrLess, c.modelsByCompany[co])
    ensures forall co, n :: co in c.modelsByCompany ==>
              (n in c.modelsByCompany[co] <==> HasModel(data, co, n))
    ensures Increasing(IntLess, c.years)
    ensures forall y :: y in c.years <==> HasYear(data, y)
    ensures Increasing(StrLess, c.fuelTypes)
    ensures forall ft :: ft in c.fuelTypes <==> HasFuelType(data, ft)
  {
    var companies := Companies(data);
    Catalog(
      companies,
      map co | co in companies :: ModelsOf(data, co),
      Years(data),
      FuelTypes(data))
  }

  lemma CompaniesByRowSet(a: seq<Record>, b: seq<Record>)
    requires forall r :: r in a <==> r in b
    ensures Companies(a) == Companies(b)
  {
    StrLessIsStrictTotalOrder();
    assert forall co :: HasCompany(a, co) <==> HasCompany(b, co);
    IncreasingUnique(StrLess, Companies(a), Companies(b));
  }

  lemma ModelsByRowSet(a: seq<Record>, b: seq<Record>, co: string)
    requires forall r :: r in a <==> r in b
    ensures ModelsOf(a, co) == ModelsOf(b, co)
  {
    StrLessIsStrictTotalOrder();
    assert forall n :: HasModel(a, co, n) <==> HasModel(b, co, n);
    IncreasingUnique(StrLess, ModelsOf(a, co), ModelsOf(b, co));
  }

  lemma YearsByRowSet(a: seq<Record>, b: seq<Record>)
    requires forall r :: r in a <==> r in b
    ensures Years(a) == Years(b)
  {
    IntLessIsStrictTotalOrder();
    assert forall y :: HasYear(a, y) <==> HasYear(b, y);
    IncreasingUnique(IntLess, Years(a), Years(b));
  }

  lemma FuelTypesByRowSet(a: seq<Record>, b: seq<Record>)
    requires forall r :: r in a <==> r in b
    ensures FuelTypes(a) == FuelTypes(b)
  {
    StrLessIsStrictTotalOrder();
    assert forall ft :: HasFuelType(a, ft) <==> HasFuelType(b, ft);
    IncreasingUnique(StrLess, FuelTypes(a), FuelTypes(b));
  }

  lemma ModelsMapByRowSet(a: seq<Record>, b: seq<Record>, cs: seq<string>)
    requires forall r :: r in a <==> r in b
    ensures (map co | co in cs :: ModelsOf(a, co)) == (map co | co in cs :: ModelsOf(b, co))
  {
    forall co | co in cs ensures ModelsOf(a, co) == ModelsOf(b, co) {
      ModelsByRowSet(a, b, co);
    }
  }

  /** The catalog depends only on which rows occur, not on their order or on repeated rows. */
  lemma CatalogDependsOnRowSet(a: seq<Record>, b: seq<Record>)
    requires forall r :: r in a <==> r in b
    ensures BuildCatalog(a) == BuildCatalog(b)
  {
    CompaniesByRowSet(a, b);
    YearsByRowSet(a, b);
    FuelTypesByRowSet(a, b);
    ModelsMapByRowSet(a, b, Companies(a));
  }

  /** Permuting the listing rows yields the identical catalog. */
  lemma CatalogPermutationInvariant(a: seq<Record>, b: seq<Record>)
    requires multiset(a) == multiset(b)
    ensures BuildCatalog(a) == BuildCatalog(b)
  {
    forall r ensures r in a <==> r in b {
      assert r in a <==> r in multiset(a);
      assert r in b <==> r in multiset(b);
    }
    CatalogDependsOnRowSet(a, b);
  }

  /** Two Maruti listings, a 2015 Swift and a 2018 Baleno, both on petrol. */
  ghost predicate IsTwoMarutiListings(data: seq<Record>) {
    data == [Record("Maruti", "Swift", 2015, "Petrol"), Record("Maruti", "Baleno", 2018, "Petrol")]
  }

  lemma TwoMarutiCompanies(data: seq<Record>)
    requires IsTwoMarutiListings(data)
    ensures Companies(data) == ["Maruti"]
  {
    StrLessIsStrictTotalOrder();
    assert forall co :: HasCompany(data, co) <==> co == "Maruti" by {
      assert data[0] in data;
    }
    IncreasingIsSingleton(StrLess, Companies(data), "Maruti");
  }

  /** A company seen with exactly two model names has those two as its models, in ascending order. */
  lemma ModelsOfTwo(data: seq<Record>, co: string, x: string, y: string)
    requires StrLess(x, y)
    requires forall n :: HasModel(data, co, n) <==> n == x || n == y
    ensures ModelsOf(data, co) == [x, y]
  {
    StrLessIsStrictTotalOrder();
    IncreasingIsPair(StrLess, ModelsOf(data, co), x, y);
  }

  lemma TwoMarutiModels(data: seq<Record>)
    requires IsTwoMarutiListings(data)
    ensures ModelsOf(data, "Maruti") == ["Baleno", "Swift"]
  {
    assert StrLess("Baleno", "Swift");
    assert forall n :: HasModel(data, "Maruti", n) <==> n == "Baleno" || n == "Swift" by {
      assert data[0] in data && data[1] in data;
    }
    ModelsOfTwo(data, "Maruti", "Baleno", "Swift");
  }

  lemma TwoMarutiYears(data: seq<Record>)
    requires IsTwoMarutiListings(data)
    ensures Years(data) == [2015, 2018]
  {
    IntLessIsStrictTotalOrder();
    assert forall y :: HasYear(data, y) <==> y == 2015 || y == 2018 by {
      assert data[0] in data && data[1] in data;
    }
    IncreasingIsPair(IntLess, Years(data), 2015, 2018);
  }

  lemma TwoMarutiFuelTypes(data: seq<Record>)
    requires IsTwoMarutiListings(data)
    ensures FuelTypes(data) == ["Petrol"]
  {
    StrLessIsStrictTotalOrder();
    assert forall ft :: HasFuelType(data, ft) <==> ft == "Petrol" by {
      assert data[0] in data;
    }
    IncreasingIsSingleton(StrLess, FuelTypes(data), "Petrol");
  }

  /** A catalog whose four parts are those of `data` is the catalog of `data`. */
  lemma BuildCatalogIs(data: seq<Record>, c: Catalog)
    requires Companies(data) == c.companies
    requires forall co :: co in c.modelsByCompany <==> co in c.companies
    requires forall co :: co in c.modelsByCompany ==> ModelsOf(data, co) == c.modelsByCompany[co]
    requires Years(data) == c.years
    requires FuelTypes(data) == c.fuelTypes
    ensures BuildCatalog(data) == c
  {
    assert (map co | co in c.companies :: ModelsOf(data, co)) == c.modelsByCompany;
  }

  /** The catalog of the two Maruti listings: one company, its two models in order, two years, one fuel. */
  lemma TwoMarutiCatalog(data: seq<Record>)
    requires IsTwoMarutiListings(data)
    ensures BuildCatalog(data) == Catalog(["Maruti"], map["Maruti" := ["Baleno", "Swift"]], [2015, 2018], ["Petrol"])
  {
    TwoMarutiCompanies(data);
    TwoMarutiModels(data);
    TwoMarutiYears(data);
    TwoMarutiFuelTypes(data);
    BuildCatalogIs(data, Catalog(["Maruti"], map["Maruti" := ["Baleno", "Swift"]], [2015, 2018], ["Petrol"]));
  }
}

/**
 * Record validation of the SQLite application (_validar_dados in
 * app_aprimorado.py): required fields per table, integer and decimal fields
 * converted in place in the data dict, and, for a sale, a positive quantity
 * of an existing product that does not exceed its stock.
 */
module Validacao {
  import opened Wrappers
  import opened PyText

  /** The three tables of the application. */
  datatype Tipo = Produtos | Vendas | Vendedores

  /**
   * A value in the data dict or in a stored row: the normalised text, an
   * integer from int(), or the text a decimal field handed to float().
   */
  datatype Value = Texto(s: string) | Inteiro(n: int) | Decimal(text: string)

  /** The data dict as the form fills it: (column, normalised text), in column order. */
  type Form = seq<(string, string)>

  /** The data dict after conversion, which is also the shape of a stored row. */
  type Record = seq<(string, Value)>

  // ---------------------------------------------------------------------------
  // The data dict as an association list
  // ---------------------------------------------------------------------------

  /** dict.get(col): the value of the first entry for `col`, or None. */
  function Get<V>(r: seq<(string, V)>, col: string): (v: Option<V>)
  {
    if r == [] then None
    else if r[0].0 == col then Some(r[0].1)
    else Get(r[1..], col)
  }

  /** d[col] = v: overwrite the entry for `col`, or add it at the end when there is none. */
  function Set<V>(r: seq<(string, V)>, col: string, v: V): (r': seq<(string, V)>)
    ensures Get(r', col) == Some(v)
    ensures forall c :: c != col ==> Get(r', c) == Get(r, c)
  {
    if r == [] then [(col, v)]
    else if r[0].0 == col then [(col, v)] + r[1..]
    else [r[0]] + Set(r[1..], col, v)
  }

  /** Writing the value a column already holds changes nothing. */
  lemma {:induction false} SetOwnValue<V>(r: seq<(string, V)>, col: string)
    requires Get(r, col).Some?
    ensures Set(r, col, Get(r, col).value) == r
  {
    if r[0].0 != col {
      SetOwnValue(r[1..], col);
    }
  }

  /** A second write to a column replaces the first. */
  lemma {:induction false} SetTwice<V>(r: seq<(string, V)>, col: string, v1: V, v2: V)
    ensures Set(Set(r, col, v1), col, v2) == Set(r, col, v2)
  {
    if r != [] && r[0].0 != col {
      SetTwice(r[1..], col, v1, v2);
    }
  }

  // ---------------------------------------------------------------------------
  // Typed reads of a record
  // ---------------------------------------------------------------------------

  /** data.get("Qnt Vendida", 0) after conversion. */
  function QntVendida(rec: Record): int
  {
    match Get<Value>(rec, "Qnt Vendida")
    case Some(Inteiro(n)) => n
    case _ => 0
  }

  /** data.get("Codigo Produto"): the product a sale refers to. */
  function ProdutoReferido(rec: Record): Option<string>
  {
    match Get<Value>(rec, "Codigo Produto")
    case Some(Texto(s)) => Some(s)
    case _ => None
  }

  /** The stock of a product row; a row without the column holds the schema's DEFAULT 0. */
  function Quantidade(row: Record): int
  {
    match Get<Value>(row, "Quantidade")
    case Some(Inteiro(n)) => n
    case _ => 0
  }

  // ---------------------------------------------------------------------------
  // Required fields
  // ---------------------------------------------------------------------------

  function CamposObrigatorios(t: Tipo): seq<string>
  {
    match t
    case Produtos => ["Codigo Produto", "Nome Produto"]
    case Vendas => ["Codigo Venda", "Codigo Produto", "Nome Produto"]
    case Vendedores => ["Id Vendedor", "Nome"]
  }

  /** `not data.get(field) or str(data.get(field)).strip() == ""`. */
  predicate EmBranco(data: Form, field: string)
  {
    match Get(data, field)
    case None => true
    case Some(v) => v == "" || Strip(v) == ""
  }

  /** The first required field, in the table's order, that is missing or blank. */
  function PrimeiroFaltante(fields: seq<string>, data: Form): (r: Option<string>)
    ensures r.None? <==> forall i :: 0 <= i < |fields| ==> !EmBranco(data, fields[i])
    ensures r.Some? ==> exists i :: 0 <= i < |fields| && fields[i] == r.value && EmBranco(data, r.value)
                                    && forall j :: 0 <= j < i ==> !EmBranco(data, fields[j])
  {
    if fields == [] then None
    else if EmBranco(data, fields[0]) then Some(fields[0])
    else
      var resto := fields[1..];
      var r := PrimeiroFaltante(resto, data);
      assert forall i :: 0 <= i < |resto| ==> resto[i] == fields[i + 1];
      assert r.Some? ==> exists i :: 1 <= i < |fields| && fields[i] == r.value && EmBranco(data, r.value)
                                     && forall j :: 0 <= j < i ==> !EmBranco(data, fields[j]) by {
        if r.Some? {
          var k :| 0 <= k < |resto| && resto[k] == r.value && EmBranco(data, r.value)
                   && forall j :: 0 <= j < k ==> !EmBranco(data, resto[j]);
          assert forall j :: 0 <= j < k + 1 ==> !EmBranco(data, fields[j]) by {
            forall j | 0 <= j < k + 1 ensures !EmBranco(data, fields[j]) {
              if j > 0 { assert fields[j] == resto[j - 1]; }
            }
          }
          assert fields[k + 1] == r.value;
        }
      }
      r
  }

  // ---------------------------------------------------------------------------
  // Type conversion
  // ---------------------------------------------------------------------------

  const CAMPOS_INTEIROS: seq<string> := ["Quantidade", "Qnt Vendida"]
  const CAMPOS_DECIMAIS: seq<string> := ["Valor Compra", "Valor Venda", "Valor Mercado"]

  /**
   * The conversion of one field: int(v) for integer fields; for decimal
   * fields the comma is replaced by a point and `floatOk` says whether
   * float() accepts the result; other fields stay text. None is the
   * ValueError that rejects the record.
   */
  function Converter(col: string, v: string, floatOk: string -> bool): (r: Option<Value>)
    ensures col in CAMPOS_INTEIROS ==> (r.Some? <==> ParseInt(v).Some?) && (r.Some? ==> r.value == Inteiro(ParseInt(v).value))
    ensures col in CAMPOS_DECIMAIS ==> (r.Some? <==> floatOk(ReplaceComma(v))) && (r.Some? ==> r.value.Decimal? && ',' !in r.value.text)
    ensures col !in CAMPOS_INTEIROS && col !in CAMPOS_DECIMAIS ==> r == Some(Texto(v))
  {
    if col in CAMPOS_INTEIROS then
      match ParseInt(v)
      case Some(n) => Some(Inteiro(n))
      case None => None
    else if col in CAMPOS_DECIMAIS then
      var limpo := ReplaceComma(v);
      if floatOk(limpo) then Some(Decimal(limpo)) else None
    else Some(Texto(v))
  }

  predicate Convertivel(data: Form, floatOk: string -> bool)
  {
    forall i :: 0 <= i < |data| ==> Converter(data[i].0, data[i].1, floatOk).Some?
  }

  /** The data dict once every field has been converted: same columns, same order. */
  function Convertido(data: Form, floatOk: string -> bool): (rec: Record)
    requires Convertivel(data, floatOk)
    ensures |rec| == |data|
    ensures forall i :: 0 <= i < |data| ==> rec[i].0 == data[i].0
  {
    seq(|data|, i requires 0 <= i < |data| => (data[i].0, Converter(data[i].0, data[i].1, floatOk).value))
  }

  /** The test "this (column, text) entry converts without raising ValueError". */
  function Converte(floatOk: string -> bool): ((string, string)) -> bool
  {
    (e: (string, string)) => Converter(e.0, e.1, floatOk).Some?
  }

  /** Every element passes `ok` exactly when the tail's do, once the head does. */
  lemma TodosCauda<T>(s: seq<T>, ok: T -> bool)
    requires |s| > 0 && ok(s[0])
    ensures (forall i :: 0 <= i < |s| ==> ok(s[i])) <==> (forall i :: 0 <= i < |s[1..]| ==> ok(s[1..][i]))
  {
    if forall i :: 0 <= i < |s[1..]| ==> ok(s[1..][i]) {
      forall i | 1 <= i < |s| ensures ok(s[i]) {
        assert s[i] == s[1..][i - 1];
      }
    }
  }

  /** Position i holds the first element of s, in order, that fails the test `ok`. */
  predicate PrimeiraFalha<T>(s: seq<T>, ok: T -> bool, i: nat)
  {
    && i < |s|
    && !ok(s[i])
    && forall j :: 0 <= j < i ==> ok(s[j])
  }

  /** Past a first element that passes, the first failure of the rest is the first failure of all. */
  lemma PrimeiraFalhaCauda<T>(s: seq<T>, ok: T -> bool, i: nat)
    requires |s| > 0 && ok(s[0])
    requires PrimeiraFalha(s[1..], ok, i)
    ensures PrimeiraFalha(s, ok, i + 1) && s[i + 1] == s[1..][i]
  {
    forall j | 1 <= j < i + 1 ensures ok(s[j]) {
      assert s[j] == s[1..][j - 1];
    }
  }

  /** And the other way round: a first failure past a passing first element is one of the rest. */
  lemma PrimeiraFalhaNaCauda<T>(s: seq<T>, ok: T -> bool, i: nat)
    requires |s| > 0 && ok(s[0])
    requires PrimeiraFalha(s, ok, i)
    ensures 0 < i && PrimeiraFalha(s[1..], ok, i - 1) && s[i] == s[1..][i - 1]
  {
    forall j | 0 <= j < i - 1 ensures ok(s[1..][j]) {
      assert s[1..][j] == s[j + 1];
    }
  }

  /** Past a first entry that converts, the dict converts exactly when the rest does. */
  lemma ConvertivelCauda(data: Form, floatOk: string -> bool)
    requires |data| > 0 && Converter(data[0].0, data[0].1, floatOk).Some?
    ensures Convertivel(data, floatOk) <==> Convertivel(data[1..], floatOk)
  {
    var ok, resto := Converte(floatOk), data[1..];
    TodosCauda(data, ok);
    assert Convertivel(data, floatOk) <==> forall i :: 0 <= i < |data| ==> ok(data[i]);
    assert Convertivel(resto, floatOk) <==> forall i :: 0 <= i < |resto| ==> ok(resto[i]);
  }

  /** The first field, in dict order, whose conversion raises ValueError. */
  function PrimeiroNaoConvertivel(data: Form, floatOk: string -> bool): (r: Option<string>)
    ensures r.None? <==> Convertivel(data, floatOk)
  {
    if data == [] then None
    else if Converter(data[0].0, data[0].1, floatOk).None? then Some(data[0].0)
    else
      ConvertivelCauda(data, floatOk);
      PrimeiroNaoConvertivel(data[1..], floatOk)
  }

  /**
   * The field reported is the one at the first position whose conversion
   * raises, and there is one exactly when a field is reported.
   */
  lemma {:induction false} PrimeiroNaoConvertivelEOPrimeiro(data: Form, floatOk: string -> bool)
    ensures PrimeiroNaoConvertivel(data, floatOk).Some? <==> exists i: nat :: PrimeiraFalha(data, Converte(floatOk), i)
    ensures forall i: nat :: PrimeiraFalha(data, Converte(floatOk), i) ==> PrimeiroNaoConvertivel(data, floatOk) == Some(data[i].0)
  {
    var ok := Converte(floatOk);
    if data == [] {
    } else if !ok(data[0]) {
      assert PrimeiraFalha(data, ok, 0);
    } else {
      PrimeiroNaoConvertivelEOPrimeiro(data[1..], floatOk);
      if PrimeiroNaoConvertivel(data[1..], floatOk).Some? {
        var i: nat :| PrimeiraFalha(data[1..], ok, i);
        PrimeiraFalhaCauda(data, ok, i);
      }
      forall i: nat | PrimeiraFalha(data, ok, i)
        ensures PrimeiroNaoConvertivel(data, floatOk) == Some(data[i].0)
      {
        PrimeiraFalhaNaCauda(data, ok, i);
      }
    }
  }

  /**
   * The conversion loop of _validar_dados: every integer or decimal entry of
   * the dict is overwritten by its converted value, in dict order; the first
   * entry that does not convert stops the loop and is reported.
   */
  method ConverterTipos(data: Form, floatOk: string -> bool) returns (r: Result<Record, string>)
    ensures r.Success? <==> Convertivel(data, floatOk)
    ensures r.Success? ==> r.value == Convertido(data, floatOk)
    ensures r.Failure? ==> PrimeiroNaoConvertivel(data, floatOk) == Some(r.error)
  {
    var rec: Record := seq(|data|, i requires 0 <= i < |data| => (data[i].0, Texto(data[i].1)));
    for i := 0 to |data|
      invariant |rec| == |data|
      invariant forall j :: 0 <= j < i ==> Converter(data[j].0, data[j].1, floatOk).Some?
      invariant forall j :: 0 <= j < i ==> rec[j] == (data[j].0, Converter(data[j].0, data[j].1, floatOk).value)
      invariant forall j :: i <= j < |data| ==> rec[j] == (data[j].0, Texto(data[j].1))
      invariant PrimeiroNaoConvertivel(data, floatOk) == PrimeiroNaoConvertivel(data[i..], floatOk)
    {
      assert data[i..][1..] == data[i + 1..];
      var k := rec[i].0;
      if k in CAMPOS_INTEIROS || k in CAMPOS_DECIMAIS {
        var valor := Converter(k, data[i].1, floatOk);
        if valor.None? {
          return Failure(k);
        }
        rec := rec[i := (k, valor.value)];
      }
    }
    return Success(rec);
  }

  // ---------------------------------------------------------------------------
  // The whole validation
  // ---------------------------------------------------------------------------

  datatype Erro =
    | CampoObrigatorio(campo: string)
    | NumeroInvalido(campo: string)
    | QuantidadeNaoPositiva
    | ProdutoNaoEncontrado
    | EstoqueInsuficiente(disponivel: int)

  /** A sale the stock can serve: a positive quantity, an existing product, enough of it. */
  predicate VendaCabe(rec: Record, produtos: map<string, Record>)
  {
    && 0 < QntVendida(rec)
    && ProdutoReferido(rec).Some?
    && ProdutoReferido(rec).value in produtos
    && QntVendida(rec) <= Quantidade(produtos[ProdutoReferido(rec).value])
  }

  /**
   * _validar_dados: required fields first, then type conversion, then for a
   * sale the quantity, the product and the stock, in that order. The record
   * it accepts is the converted dict.
   */
  function Validar(t: Tipo, data: Form, produtos: map<string, Record>, floatOk: string -> bool)
    : (r: Result<Record, Erro>)
    ensures r.Success? ==> Convertivel(data, floatOk) && r.value == Convertido(data, floatOk)
  {
    match PrimeiroFaltante(CamposObrigatorios(t), data)
    case Some(f) => Failure(CampoObrigatorio(f))
    case None =>
      match PrimeiroNaoConvertivel(data, floatOk)
      case Some(k) => Failure(NumeroInvalido(k))
      case None =>
        var rec := Convertido(data, floatOk);
        if t != Vendas then Success(rec)
        else if QntVendida(rec) <= 0 then Failure(QuantidadeNaoPositiva)
        else if ProdutoReferido(rec).None? || ProdutoReferido(rec).value !in produtos then Failure(ProdutoNaoEncontrado)
        else
          var estoque := Quantidade(produtos[ProdutoReferido(rec).value]);
          if QntVendida(rec) > estoque then Failure(EstoqueInsuficiente(estoque))
          else Success(rec)
  }

  /** The method form of _validar_dados, with its two loops. */
  method ValidarDados(t: Tipo, data: Form, produtos: map<string, Record>, floatOk: string -> bool)
    returns (r: Result<Record, Erro>)
    ensures r == Validar(t, data, produtos, floatOk)
  {
    var obrigatorios := CamposObrigatorios(t);
    for i := 0 to |obrigatorios|
      invariant PrimeiroFaltante(obrigatorios, data) == PrimeiroFaltante(obrigatorios[i..], data)
    {
      assert obrigatorios[i..][1..] == obrigatorios[i + 1..];
      var campo := obrigatorios[i];
      var v := Get(data, campo);
      if v.None? || v.value == "" || Strip(v.value) == "" {
        return Failure(CampoObrigatorio(campo));
      }
    }
    assert obrigatorios[|obrigatorios|..] == [];

    var convertido := ConverterTipos(data, floatOk);
    if convertido.Failure? {
      return Failure(NumeroInvalido(convertido.error));
    }
    var rec := convertido.value;

    if t == Vendas && QntVendida(rec) <= 0 {
      return Failure(QuantidadeNaoPositiva);
    }
    if t == Vendas {
      var pid := ProdutoReferido(rec);
      if pid.None? || pid.value !in produtos {
        return Failure(ProdutoNaoEncontrado);
      }
      var estoqueAtual := Quantidade(produtos[pid.value]);
      if QntVendida(rec) > estoqueAtual {
        return Failure(EstoqueInsuficiente(estoqueAtual));
      }
    }
    return Success(rec);
  }

  /**
   * A record is accepted exactly when its required fields are filled, all
   * its numbers convert and, for a sale, the stock can serve it.
   */
  lemma ValidacaoAceitaSeESoSe(t: Tipo, data: Form, produtos: map<string, Record>, floatOk: string -> bool)
    ensures Validar(t, data, produtos, floatOk).Success? <==>
      && (forall i :: 0 <= i < |CamposObrigatorios(t)| ==> !EmBranco(data, CamposObrigatorios(t)[i]))
      && Convertivel(data, floatOk)
      && (t == Vendas ==> VendaCabe(Convertido(data, floatOk), produtos))
  {
    var faltante := PrimeiroFaltante(CamposObrigatorios(t), data);
    var invalido := PrimeiroNaoConvertivel(data, floatOk);
    if faltante.None? && invalido.None? {
      var rec := Convertido(data, floatOk);
      assert Validar(t, data, produtos, floatOk).Success? <==> t != Vendas || VendaCabe(rec, produtos);
    }
  }

  /** An accepted sale names an existing product and asks for a positive amount it can serve. */
  lemma VendaAceitaCabeNoEstoque(data: Form, produtos: map<string, Record>, floatOk: string -> bool)
    requires Validar(Vendas, data, produtos, floatOk).Success?
    ensures var rec := Validar(Vendas, data, produtos, floatOk).value;
      && ProdutoReferido(rec).Some? && ProdutoReferido(rec).value in produtos
      && 0 < QntVendida(rec) <= Quantidade(produtos[ProdutoReferido(rec).value])
  {
  }

  /**
   * Each refusal names its cause: the first blank required field, the first field
   * whose number does not convert, a quantity that is not positive, a
   * product that does not exist, or a stock below the amount asked, which
   * it reports.
   */
  lemma ValidacaoMotivoDaRecusa(t: Tipo, data: Form, produtos: map<string, Record>, floatOk: string -> bool)
    requires Validar(t, data, produtos, floatOk).Failure?
    ensures var e := Validar(t, data, produtos, floatOk).error;
      && (e.CampoObrigatorio? ==> e.campo in CamposObrigatorios(t) && EmBranco(data, e.campo)
                                  && PrimeiroFaltante(CamposObrigatorios(t), data) == Some(e.campo))
      && (e.NumeroInvalido? ==> !Convertivel(data, floatOk)
                                && exists i: nat :: PrimeiraFalha(data, Converte(floatOk), i) && data[i].0 == e.campo)
      && (e.QuantidadeNaoPositiva? || e.ProdutoNaoEncontrado? || e.EstoqueInsuficiente? ==> t == Vendas && Convertivel(data, floatOk))
      && (e.QuantidadeNaoPositiva? ==> QntVendida(Convertido(data, floatOk)) <= 0)
      && (e.ProdutoNaoEncontrado? ==>
            var rec := Convertido(data, floatOk);
            0 < QntVendida(rec) && (ProdutoReferido(rec).None? || ProdutoReferido(rec).value !in produtos))
      && (e.EstoqueInsuficiente? ==>
            var rec := Convertido(data, floatOk);
            && 0 < QntVendida(rec) && ProdutoReferido(rec).Some? && ProdutoReferido(rec).value in produtos
            && e.disponivel == Quantidade(produtos[ProdutoReferido(rec).value])
            && e.disponivel < QntVendida(rec))
  {
    PrimeiroNaoConvertivelEOPrimeiro(data, floatOk);
  }

  /** A sale asking for more than the product holds is refused, whatever else it says. */
  lemma VendaAlemDoEstoqueRecusada(data: Form, produtos: map<string, Record>, floatOk: string -> bool)
    requires Convertivel(data, floatOk)
    requires var rec := Convertido(data, floatOk);
      ProdutoReferido(rec).Some? && ProdutoReferido(rec).value in produtos
      && QntVendida(rec) > Quantidade(produtos[ProdutoReferido(rec).value])
    ensures Validar(Vendas, data, produtos, floatOk).Failure?
  {
  }
}

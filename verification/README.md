# Record keeping of the ERP apps, in Dafny

This project models the record-keeping layer of two small Tkinter ERP
applications for a shop: products, sales and sellers. Each application keeps
its records differently:

- `app_aprimorado.py` keeps them in three SQLite tables.
- `app.py` keeps them in three sheets of an Excel workbook, held in memory as
  pandas DataFrames.

Everything around that layer is left out: windows, message boxes, charts,
invoices and file I/O. What is modelled:

- **Field normalisation** (`padronizar_texto`, both applications), in
  `padronizar.dfy` over the Python string built-ins of `pytext.dfy`:
  - values are trimmed;
  - identifier columns are upper-cased;
  - phone numbers are reduced to at most eleven digits and laid out as
    `(DD) DDDDD-DDDD` or `(DD) DDDD-DDDD`.
- **Record validation** of the SQLite application (`_validar_dados`), in
  `validacao.dfy`:
  - required fields per table;
  - integer and decimal conversion written back into the data dict;
  - for a sale: a positive quantity of an existing product, within its
    stock.
- **The SQLite write path** (`_salvar_registro`, `_salvar_edicao`,
  `_excluir_registro`, `_atualizar_estoque`, and the duplicate-key outcome
  of `execute_query`):
  - as functions over three tables keyed by primary key, in `banco.dfy`;
  - as the class `BancoDeDados`, whose methods update those maps statement
    by statement and are proved to leave exactly the tables the functions
    describe, in `banco_sqlite.dfy`.
- **The Excel sheet** (`salvar_novo`, `salvar_edicao`, `excluir`, and the
  low-stock tag of `atualizar_tree_com_estoque`), in `planilha.dfy`:
  - functions over a sequence of rows;
  - the class `Folha`, whose methods change its `rows` field in place and
    are proved against those functions.

The model follows the code:

- Editing a sale never moves stock.
- A failing DELETE does not undo the stock revert that ran before it.
- Sale codes are typed in by the user.
- Nothing is transactional.

Module `Wrappers` holds `Option` and `Result`.

## Model

| member | source | states |
|---|---|---|
| PyText.StripLeft | app_aprimorado.py:113 | the result is a suffix of the input; everything cut off before it is whitespace; it does not start with whitespace |
| PyText.StripRight | app_aprimorado.py:113 | the result is a prefix of the input; everything cut off after it is whitespace; it does not end with whitespace |
| PyText.Strip | app_aprimorado.py:113 | `strip()` leaves no whitespace at either end, and leaves an already stripped string unchanged |
| PyText.StripIsSlice | app_aprimorado.py:113 | the stripped value is a contiguous slice of the input with only whitespace on both sides |
| PyText.StripIdempotent | app_aprimorado.py:113 | stripping twice equals stripping once |
| PyText.UpperChar | app_aprimorado.py:116 | upper-casing a character never turns whitespace into non-whitespace, or the reverse |
| PyText.Upper | app_aprimorado.py:116 | `upper()` keeps the length, maps each character, and gives a string that upper-casing no longer changes |
| PyText.UpperIdempotent | app.py:86 | upper-casing twice equals upper-casing once |
| PyText.UpperStripped | app.py:84-86 | upper-casing a stripped value leaves it stripped |
| PyText.OnlyDigits | app_aprimorado.py:118 | `re.sub(r"\D", "", s)` keeps only digits, never grows, and leaves an all-digit string unchanged |
| PyText.OnlyDigitsAppend | app_aprimorado.py:118 | removing non-digits distributes over concatenation |
| PyText.ReplaceComma | app_aprimorado.py:477 | `replace(',', '.')` keeps the length, leaves no comma, and keeps every other character in place |
| PyText.ParseInt | app_aprimorado.py:474 | `int(s)` succeeds only on an optionally signed digit string, possibly with underscores between digits, after stripping |
| PyText.ShowNat | app.py:276 | `str(n)` of a natural number is a non-empty digit string denoting n |
| PyText.ParseShowInt | app.py:276 | `int(str(n)) == n` for every integer n |
| PyText.ParseIntEmpty | app_aprimorado.py:474 | `int("")` raises |
| PyText.ParseIntNegative | app_aprimorado.py:474 | `int("-3") == -3` |
| PyText.ParseIntLetters | app_aprimorado.py:474 | `int("abc")` raises |
| Padronizar.Prefix | app_aprimorado.py:118 | `s[:n]` has length min(\|s\|, n) and is a prefix of s |
| Padronizar.PhoneDigits | app_aprimorado.py:118 | at most eleven characters survive, all of them digits |
| Padronizar.LayoutDigits | app_aprimorado.py:119-122 | the phone layout adds punctuation only: its digits are exactly those of the three parts |
| Padronizar.LayoutFitsMask | app_aprimorado.py:119-122 | with a 2-digit area code, a 5- or 4-digit first part and a 4-digit last part, the layout matches `(##) #####-####` or `(##) ####-####` |
| Padronizar.FormatarTelefoneCorreto | app_aprimorado.py:117-124 | the output keeps exactly the first eleven digits; eleven digits take the mobile layout, ten the landline layout, fewer are returned bare |
| Padronizar.FormatarTelefoneStripped | app_aprimorado.py:117-124 | a formatted phone number has no surrounding whitespace |
| Padronizar.FormatarTelefoneIdempotente | app_aprimorado.py:117-124 | formatting a formatted phone number changes nothing |
| Padronizar.FormatarTelefoneCelular | app_aprimorado.py:119-120 | "11987654321" becomes "(11) 98765-4321" |
| Padronizar.FormatarTelefoneFixo | app_aprimorado.py:121-122 | "1122223333" becomes "(11) 2222-3333" |
| Padronizar.PadronizarSqlite | app_aprimorado.py:111-125 | None gives ""; any other result is stripped; an identifier column gets exactly the upper case of the stripped input, which upper() no longer changes; other columns except Telefone get exactly the stripped input |
| Padronizar.PadronizarExcel | app.py:81-95 | the same four promises, with the Excel application's identifier column names |
| Padronizar.TelefoneNaoEIdentificador | app.py:85-87 | no identifier column, in either application, is Telefone, so the two branches never meet |
| Padronizar.OnlyDigitsIgnoresStrip | app_aprimorado.py:113-118 | stripping before taking the digits loses no digit |
| Padronizar.OnlyDigitsBetweenSpaces | app_aprimorado.py:113-118 | whitespace around a value contributes no digits |
| Padronizar.NoDigitsInSpace | app_aprimorado.py:113-118 | a whitespace-only string has no digits |
| Padronizar.TelefoneNasDuasApps | app.py:87-94 | both applications store in Telefone the formatted phone number of the raw entry |
| Padronizar.PadronizarSqliteIdempotente | app_aprimorado.py:111-125 | normalising an already normalised value returns it unchanged |
| Padronizar.PadronizarExcelIdempotente | app.py:81-95 | normalising an already normalised value returns it unchanged |
| Padronizar.MesmaRegraNasDuasApps | app.py:81-95 | corresponding identifier columns of the two applications are normalised alike, and so is every other column |
| Validacao.Set | app_aprimorado.py:474 | `data[k] = v` makes k read v and leaves every other key as it was |
| Validacao.SetOwnValue | app_aprimorado.py:474 | writing back the value a key holds changes nothing |
| Validacao.SetTwice | app_aprimorado.py:474 | a second write to a key replaces the first |
| Validacao.PrimeiroFaltante | app_aprimorado.py:462-465 | it finds nothing exactly when every required field is filled; otherwise it names the first blank field in table order |
| Validacao.Converter | app_aprimorado.py:471-478 | integer fields convert exactly when `int()` accepts them, to that integer; decimal fields exactly when `float()` accepts the comma-free text; other fields stay text |
| Validacao.Convertido | app_aprimorado.py:471-478 | the converted dict keeps every column in place |
| Validacao.PrimeiroNaoConvertivel | app_aprimorado.py:471-481 | it finds nothing exactly when every field converts |
| Validacao.PrimeiroNaoConvertivelEOPrimeiro | app_aprimorado.py:471-481 | it names a field exactly when some field fails to convert, and then it names the field at the first failing position, every earlier field converting |
| Validacao.ConverterTipos | app_aprimorado.py:471-481 | the loop succeeds exactly when every field converts, and then returns the converted dict; otherwise it reports the field `PrimeiroNaoConvertivel` names, the first one in dict order that fails |
| Validacao.Validar | app_aprimorado.py:453-502 | an accepted record is the converted dict of a fully convertible form |
| Validacao.ValidarDados | app_aprimorado.py:453-502 | the two loops and the sale checks return exactly the verdict of `Validar` |
| Validacao.ValidacaoAceitaSeESoSe | app_aprimorado.py:453-502 | accepted iff the required fields are filled, every number converts and, for a sale, the stock can serve it |
| Validacao.VendaAceitaCabeNoEstoque | app_aprimorado.py:484-500 | an accepted sale names an existing product and asks for 0 < quantity <= its stock |
| Validacao.ValidacaoMotivoDaRecusa | app_aprimorado.py:462-500 | each refusal names its true cause: the first blank required field; the first field, in dict order, whose number does not convert; a non-positive quantity; a positive quantity of a product that is missing or not named; or a product whose stock, reported as available, is below the amount asked |
| Validacao.VendaAlemDoEstoqueRecusada | app_aprimorado.py:497-500 | a sale asking for more than the product holds is refused |
| Banco.ColunaChave | app_aprimorado.py:32 | each table's primary key column is one of its required fields and is neither an integer nor a decimal field |
| Banco.CoerenteAoRemover | app_aprimorado.py:577 | deleting a key keeps every row filed under its own key |
| Banco.CoerenteAoInserir | app_aprimorado.py:522 | inserting a row under the key it carries keeps every row filed under its own key |
| Banco.ChaveAposSet | app_aprimorado.py:592 | writing a column other than the key leaves the row's key unchanged |
| Banco.GetConvertido | app_aprimorado.py:471-478 | reading a column of the converted dict gives that column's converted value |
| Banco.ChaveDoConvertido | app_aprimorado.py:471-478 | the key column survives conversion as the text typed in |
| Banco.ChaveDoRegistroValidado | app_aprimorado.py:462-478 | every accepted record carries its table's key, as typed in the form |
| Banco.GetSobrescrever | app_aprimorado.py:546-553 | after the UPDATE's SET clauses, each column named in the record holds the record's value and every other column its old one |
| Banco.AjusteEstoque | app_aprimorado.py:590-594 | the stock UPDATE moves exactly that product's quantity, by exactly delta, and leaves its other columns and every other product as they were; a missing product matches no row and nothing changes |
| Banco.CoerenteAposAjuste | app_aprimorado.py:592 | the stock UPDATE never changes a product's code |
| Banco.AjusteEstoqueDesfeito | app_aprimorado.py:580-584 | adding back what was taken out restores the product table exactly |
| Banco.AjusteEstoqueSoma | app_aprimorado.py:592 | two stock updates of one product add up |
| Banco.VendaMantemEstoque | app_aprimorado.py:497-500 | a sale the stock can serve leaves every stock non-negative |
| Banco.EstoqueBaixoAposVenda | app_aprimorado.py:296-298 | a product tagged low stays tagged after a sale, and it becomes tagged exactly when the sale takes it below 5 |
| Banco.Padronizado | app_aprimorado.py:506-508 | the collected data dict keeps every column of the form, and every value in it is stripped |
| Banco.ColetarDados | app_aprimorado.py:506-508 | the collecting loop builds exactly `Padronizado(form)` |
| Banco.ComTabela | app_aprimorado.py:525 | replacing one table leaves the other two as they were |
| Banco.RegistrarEtapas | app_aprimorado.py:504-529 | a refused form changes nothing; an accepted one goes on to the INSERT with the validated record |
| Banco.EditarEtapas | app_aprimorado.py:535-561 | a refused form changes nothing; an accepted one goes on to the UPDATE with the validated record |
| Banco.InserirGrava | app_aprimorado.py:522-529 | the INSERT is refused exactly on a key already present, and then nothing changes; a stored record goes in under its own key; a stored sale takes exactly its quantity out of its product |
| Banco.RegistrarVenda | app_aprimorado.py:504-529 | a stored sale passed validation; exactly its product's stock drops by the quantity sold; every other product and the sellers are untouched |
| Banco.RegistrarMantemEstoque | app_aprimorado.py:484-529 | registering a sale or a seller never makes a stock negative |
| Banco.EditarNaoMexeNoEstoque | app_aprimorado.py:535-564 | editing a sale or a seller never moves any stock |
| Banco.AtualizarGrava | app_aprimorado.py:546-561 | a stored UPDATE moves the row from pk to the record's key, which was pk or free, and overwrites the named columns; a key held by another row is refused and nothing changes |
| Banco.ExcluirVenda | app_aprimorado.py:576-588 | deleting a sale gives its quantity back to its product, if that product still exists, then removes that sale alone; when the DELETE fails, the sale stays but the stock has already moved |
| Banco.ExcluirMantemEstoque | app_aprimorado.py:580-586 | deleting any record, a sale, a seller or a product, cannot make a stock negative |
| Banco.InserirMantemCoerencia | app_aprimorado.py:522-529 | the INSERT keeps every row of every table filed under its own key |
| Banco.AtualizarMantemCoerencia | app_aprimorado.py:553-561 | the UPDATE keeps every row filed under its own key |
| Banco.ExcluirMantemCoerencia | app_aprimorado.py:576-586 | the DELETE keeps every row filed under its own key |
| Banco.OperacoesMantemCoerencia | app_aprimorado.py:504-561 | registering and editing through the form keep every row filed under its own key |
| Banco.InserirMantemVendasPositivas | app_aprimorado.py:522-525 | inserting a sale with a positive quantity keeps every sale's quantity positive |
| Banco.AtualizarMantemVendasPositivas | app_aprimorado.py:553-561 | rewriting a sale with a positive quantity keeps every sale's quantity positive |
| Banco.OperacoesMantemVendasPositivas | app_aprimorado.py:504-561 | registering and editing through the form keep every sale's quantity positive |
| Banco.InserirEExcluirVenda | app_aprimorado.py:525-588 | inserting a sale and then deleting it restores every table, when the product's quantity is an integer |
| Banco.RegistrarEExcluirVenda | app_aprimorado.py:504-588 | registering a sale through the form and then deleting it restores every table |
| BancoSqlite.BancoDeDados.Gravar | app_aprimorado.py:91-95 | a successful statement replaces exactly one table |
| BancoSqlite.BancoDeDados.AtualizarEstoque | app_aprimorado.py:590-596 | the stock UPDATE leaves exactly `AjusteEstoque` of the products and keeps the keys coherent |
| BancoSqlite.BancoDeDados.Inserir | app_aprimorado.py:525-529 | the INSERT and the stock UPDATE after it leave exactly the result and tables of `Banco.Inserir` |
| BancoSqlite.BancoDeDados.SalvarRegistro | app_aprimorado.py:504-533 | `_salvar_registro` leaves exactly the result and tables of `Banco.Registrar` |
| BancoSqlite.BancoDeDados.Atualizar | app_aprimorado.py:553-561 | the UPDATE leaves exactly the result and tables of `Banco.Atualizar` |
| BancoSqlite.BancoDeDados.SalvarEdicao | app_aprimorado.py:535-564 | `_salvar_edicao` leaves exactly the result and tables of `Banco.Editar` |
| BancoSqlite.BancoDeDados.ExcluirRegistro | app_aprimorado.py:566-588 | `_excluir_registro` leaves exactly the result and tables of `Banco.Excluir` |
| Planilha.CelulaNova | app.py:279-282 | integer columns store 0 for an empty entry and `int(val)` otherwise, failing exactly when `int()` does; decimal columns fail exactly when `float()` refuses a non-empty entry; text columns store the entry |
| Planilha.ColunaNova | app.py:274-283 | a column fails at its own position, and passes exactly when it is not a checked column holding a value in use and its cell converts |
| Planilha.NovaLinhaDesde | app.py:272-283 | a built row has one cell per column; a refusal names a column position |
| Planilha.NovaLinhaAceitaSeESoSe | app.py:272-284 | a new row is accepted exactly when every column passes |
| Planilha.NovaLinhaDesdeCelulas | app.py:272-284 | an accepted row holds, column by column, the converted entry, and every checked column holds a value no row had |
| Planilha.NovaLinhaRecusada | app.py:272-283 | a refused row names the first column that does not pass, and why |
| Planilha.NovaLinhaPasso | app.py:272-283 | one passing column adds its cell to the row being built |
| Planilha.NovaLinha | app.py:270-284 | `salvar_novo` as written builds one cell per column |
| Planilha.NovaLinhaCorrigida | app.py:275-278 | `salvar_novo` checking only the sheet's key builds one cell per column |
| Planilha.AnexarMantemSemRepeticao | app.py:275-284 | appending a row whose checked value is fresh keeps that column free of repeats |
| Planilha.CorrigidaMantemChaveUnica | app.py:275-284 | under the corrected check, the sheet's key stays unique across appends |
| Planilha.SegundaVendaDoProdutoRecusada | app.py:275-278 | as written, a new sale with a fresh sale code is refused at the product column when its product already has a sale |
| Planilha.ColunasDeVenda | app.py:33-35 | the Vendas sheet has five columns: only the quantity is numeric, and the sale code is the first column |
| Planilha.CorrigidaAceitaOutraVendaDoProduto | app.py:275-284 | corrected, a sale with a fresh sale code and a valid quantity is stored, whatever its product and seller |
| Planilha.CelulaEditada | app.py:350-353 | an integer column stores exactly `int(val)` and fails exactly when `int()` does, so an empty entry fails; a decimal column fails on an empty entry and when `float()` refuses it; text columns store the entry; a non-empty entry gives the cell a new row would get |
| Planilha.IdentificadorNaEdicao | app.py:354-357 | the edit check refuses exactly a value another row holds and the edited row does not |
| Planilha.ColunaEditada | app.py:349-358 | a refused column leaves the rows untouched and names itself; it is refused as an invalid value exactly when its cell does not convert, and as a duplicate exactly when the cell converts, the column is checked and another row holds the value |
| Planilha.EdicaoDesde | app.py:348-358 | the edit keeps the table's shape, and a stop names a column at or after the start |
| Planilha.Edicao | app.py:348-358 | the edit keeps the table's shape; it is refused exactly when some column, judged against the table before the edit, is refused, and the refusal is that of the first such column |
| Planilha.EdicaoVeredito | app.py:348-358 | writing the earlier columns of the edited row never changes the verdict on a later column, so the edit from a column on stops exactly at the first refused column of the original table |
| Planilha.EdicaoParcial | app.py:348-358 | an edit touches the edited row alone; columns before the stop hold the new cells, and the rest keep their old ones |
| Planilha.EdicaoRecusaProdutoDeOutraVenda | app.py:354-357 | as written, moving a sale to a product another sale refers to is refused and changes nothing |
| Planilha.EdicaoCorrigidaAceitaProdutoDeOutraVenda | app.py:354-358 | corrected, the product of a sale can be set to any product, and it is written as typed |
| Planilha.SemLinha | app.py:377-379 | dropping row i and renumbering keeps the rows before i and shifts the rows after it down by one |
| Planilha.SemLinhaMultiset | app.py:377-379 | exactly the dropped row is gone; every other row survives as often as before |
| Planilha.Posicao | app.py:74 | it finds the first position of the column, and finds nothing exactly when the sheet lacks it |
| Planilha.EstoqueBaixo | app.py:73-76 | a sheet without "Quantidade" never tags a row; an integer quantity cell is tagged exactly when below 5; a text cell can be tagged exactly when `int()` accepts it, and is then tagged exactly when that integer is below 5 |
| Planilha.EstoqueBaixoPeloTexto | app.py:74-76 | for an integer or text quantity cell, the tag is `int(str(cell)) < 5`, and it exists exactly when `int()` accepts the text |
| Planilha.Etiquetas | app.py:72-76 | the refresh succeeds exactly when every row can be tagged, and then gives each row's tag in order |
| Planilha.EstoqueBaixoDasCelulas | app.py:74-76 | a row built by `salvar_novo` can be tagged, and is tagged exactly when the quantity typed in is below 5 |
| Planilha.EstoqueBaixoDaLinhaNova | app.py:74-76 | every row `salvar_novo` adds, whichever columns it checks, is tagged exactly when its typed quantity is below 5 |
| Planilha.Folha.ValorEmUso | app.py:276 | the scan answers exactly whether some row shows the value in that column |
| Planilha.Folha.ColunaDoFormulario | app.py:274-283 | one column of `salvar_novo` returns exactly `ColunaNova` for the sheet's checked columns |
| Planilha.Folha.SalvarNovo | app.py:270-292 | returns the row or refusal of `NovaLinhaDesde` over the normalised entries; the as-written and corrected checks are the instances `NovaLinha` and `NovaLinhaCorrigida`; a built row is appended once at the end, a refusal changes nothing |
| Planilha.Folha.EditarColuna | app.py:349-358 | one column of `salvar_edicao` leaves exactly the rows and error of `ColunaEditada` |
| Planilha.Folha.SalvarEdicao | app.py:346-370 | `salvar_edicao` leaves exactly the rows and error of `Edicao`, partial writes included |
| Planilha.Folha.Excluir | app.py:372-379 | `excluir` drops exactly the selected row and renumbers, or does nothing without a selection |
| Planilha.Folha.Etiquetar | app.py:70-77 | the refresh loop gives exactly `Etiquetas` of the sheet |

## Left out

- The Tkinter and ttkbootstrap interface is not modelled: windows, popups, Treeviews, auto-fill by key, login, dashboard charts and PDF invoices. Message boxes appear only as the `Resultado` or error a write returns.
- The SQLite connection, schema creation, seed data and `fetch_data` are not modelled: the three tables are given as maps. The cached `self.dfs` DataFrames are taken to equal the tables, since each write reloads them.
- The Excel workbook's load and save (`salvar_planilhas`, `database.py`) and `utils.py` are not modelled. They are file I/O and message-box wrappers.
- Timestamps (`CURRENT_TIMESTAMP`, `datetime.now`) are not modelled.
- Validacao.Converter: `float()` is the parameter `floatOk`, which says whether the text parses. A decimal cell keeps the text handed to `float()`, not a floating-point value.
- Planilha.CelulaNova: the same applies; a decimal cell holds its text, and an empty entry holds "0.0".
- Planilha.CellStr: `astype(str)` of a decimal cell is its text, so a duplicate check on a decimal column compares texts, not Python's float formatting.
- Planilha.CelulaEditada: a decimal cell holds its text, as for a new row. An empty decimal entry fails, because `float("")` raises.
- Planilha.EstoqueBaixo: a decimal quantity cell gives no tag (None) instead of `int()`'s truncation. Saving a sheet always writes an integer there.
- Banco.EstoqueBaixoAposVenda: the SQLite product list's tag is stated for rows with an integer quantity. `int()` of a missing column (0) is covered; a non-integer quantity is not.
- PyText.UpperChar: `upper()` is modelled on ASCII and Latin-1 letters that map to one character. Other scripts and expanding mappings such as `ß` are not modelled.
- PyText.IsDigit: `\D` and `int()` are modelled on ASCII digits only. Python also accepts other Unicode decimal digits.
- BancoSqlite.BancoDeDados.AtualizarEstoque: the stock UPDATE is taken to succeed. A database fault is modelled only on the main INSERT, UPDATE or DELETE, through `falhaBanco`.
- Banco.Excluir: the revert binds the sold quantity read with `.iloc[0]` from the cached DataFrame, a `numpy.int64`. The sqlite3 driver does not adapt that type to an integer by default and likely binds it as a BLOB, so `quantidade + ?` would add 0 and the revert would restore nothing. The model uses the quantity as a plain integer, so it describes the intended revert. Not executed.
- Banco.RegistrarMantemEstoque: stated for sales and sellers only. A product is saved with whatever integer `int()` accepts, and `int("-3")` passes the conversion at app_aprimorado.py:474 with no sign check, so saving a product can itself put a negative stock in the table.
- The stock revert and the DELETE of `_excluir_registro` run in that order with no rollback, and the model keeps that order. No transaction is modelled because the code has none.
- Sale-code generation and staged editing of sales are absent from the code and are not modelled.

## Findings

| source | as written | input that shows it | evidently intended | confidence | as-written member | corrected member |
|---|---|---|---|---|---|---|
| app.py:275-278 | `salvar_novo` refuses a value already present in any of "ID do Vendedor", "Código do Produto" and "Código de Venda", on every sheet | a Vendas sheet holding a sale of product P, then a new sale with a fresh sale code for P: refused with "Código do Produto já existe!" | only the sheet's own key, its first column, must be unique | not executed | Planilha.SegundaVendaDoProdutoRecusada | Planilha.CorrigidaAceitaOutraVendaDoProduto |
| app.py:354-357 | `salvar_edicao` applies the same three-column check when editing | editing a sale so that it names a product another sale already names: refused at the product column | only the sheet's own key is checked | not executed | Planilha.EdicaoRecusaProdutoDeOutraVenda | Planilha.EdicaoCorrigidaAceitaProdutoDeOutraVenda |

`Planilha.Folha` takes the checked columns as its `chaves` field.
`Planilha.NovaLinha` is the as-written check, with `chaves` equal to `ID_COLUMNS_EXCEL`. `Planilha.NovaLinhaCorrigida` is the corrected one, with `chaves` equal to the first column. `Planilha.CorrigidaMantemChaveUnica` proves that the corrected check keeps the key unique.

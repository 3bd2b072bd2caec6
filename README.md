# ProdutoInvestimentoRepository, modelled in Dafny

This project models the data-access core of a small investment-products
application, `ProdutoInvestimentoRepository`. The repository wraps one table
of investment products and offers two kinds of operation.

- CRUD over the table: `GetAll`, `GetById`, `Add`, `Update` and `Delete`.
  The database assigns the key on insert.
- Read-only LINQ queries over the table:
  - single-criterion searches: `BuscarPorCategoria`, `BuscarPorRentabilidadeMinima`, `BuscarPorRisco`;
  - a combined search with dynamic ordering: `BuscarComFiltros`;
  - aggregate statistics with a group-by on category: `ObterEstatisticas`;
  - a field projection: `ObterResumo`;
  - Skip/Take pagination with a page count: `ObterProdutosPaginados`.

The table is a `seq<ProdutoInvestimento>` in store order. The CRUD operations
are methods of a class that holds that sequence and the next value of the
identity column. Every query is a function of the sequence, and its lemmas
state what the query returns.

Layout, one module per file:

- `texto.dfy` (`Texto`): ASCII `string.ToLower` and character-level `ToUpper`, `Contains` as a substring test, lexicographic string order.
- `modelo.dfy` (`Modelo`): the product record, `Option`/`Result`, and the unique-key invariant with the key set.
- `ordenacao.dfy` (`Ordenacao`): the sort keys and `OrderBy` (insertion sort), proved sorted and a permutation.
- `consultas.dfy` (`Consultas`): `Where` and the four searches.
- `estatisticas.dfy` (`Estatisticas`): count, average, maximum, minimum, and the group-by on category.
- `resumo.dfy` (`Resumo`): the projection `ObterResumo`.
- `paginacao.dfy` (`Paginacao`): `ObterProdutosPaginados` and the page count.
- `repositorio.dfy` (`Repositorio`): the class `ProdutoInvestimentoRepository` with the CRUD operations.

The entity class in `sprintcsharp/models/ProdutoInvestimento.cs` declares the
columns `Tipo`, `Risco` and `Preco`, and `MeuDbContext.cs` maps those. The
repository, however, reads `Categoria`, `NivelRisco` and `RentabilidadeAnual`.
The model follows the repository, since the repository is the code whose
behaviour is modelled: the record has `id`, `nome`, `categoria`, `nivelRisco`
and `rentabilidadeAnual`.

## Model

| member | source | states |
|---|---|---|
| Texto.ToLower | sprintcsharp/data/ProdutoInvestimentoRepository.cs:67 | same length; no capital letter in the result; each ASCII capital at position `i` becomes the small letter 32 code points above it, and every other character stays at its position unchanged |
| Texto.MinusculaChar | sprintcsharp/data/ProdutoInvestimentoRepository.cs:67 | the result is never a capital; a capital maps to the small letter 32 code points above it; everything else is unchanged |
| Texto.MaiusculaChar | sprintcsharp/data/ProdutoInvestimentoRepository.cs:158 | the result is never a small letter; a small letter maps to the capital 32 code points below it, which lowers back to it; everything else is unchanged |
| Texto.ContemVazio | sprintcsharp/data/ProdutoInvestimentoRepository.cs:67 | every string contains the empty string |
| Texto.MenorOuIgualReflexivo | sprintcsharp/data/ProdutoInvestimentoRepository.cs:89 | the string order is reflexive |
| Texto.MenorOuIgualTotal | sprintcsharp/data/ProdutoInvestimentoRepository.cs:89 | any two strings are comparable |
| Texto.MenorOuIgualTransitivo | sprintcsharp/data/ProdutoInvestimentoRepository.cs:89 | the string order is transitive |
| Texto.MenorOuIgualAntissimetrico | sprintcsharp/data/ProdutoInvestimentoRepository.cs:89 | two strings that precede each other are equal |
| Modelo.Ids | sprintcsharp/data/ProdutoInvestimentoRepository.cs:51 | a key is in the set exactly when some row carries it |
| Ordenacao.AntesTotal | sprintcsharp/data/ProdutoInvestimentoRepository.cs:135-141 | for every sort key, any two rows are comparable |
| Ordenacao.AntesTransitivo | sprintcsharp/data/ProdutoInvestimentoRepository.cs:135-141 | for every sort key, the order is transitive |
| Ordenacao.Inserir | sprintcsharp/data/ProdutoInvestimentoRepository.cs:89 | inserting into a sorted list gives a sorted list with exactly one more occurrence of the row |
| Ordenacao.OrderBy | sprintcsharp/data/ProdutoInvestimentoRepository.cs:78 | the result is sorted by the key (descending yield, or ascending category, risk, name or id) and is a permutation of the input |
| Ordenacao.OrderByPermutacao | sprintcsharp/data/ProdutoInvestimentoRepository.cs:168 | sorting keeps the length and exactly the rows of the input |
| Ordenacao.OrderByIdEstrito | sprintcsharp/data/ProdutoInvestimentoRepository.cs:168 | with unique keys, ordering by `Id` gives strictly increasing keys |
| Ordenacao.MultiplicidadeUnica | sprintcsharp/data/MeuDbContext.cs:31 | in a table with unique keys no row occurs twice |
| Ordenacao.PermutacaoPreservaIdsUnicos | sprintcsharp/data/MeuDbContext.cs:31 | a permutation of a table with unique keys has unique keys |
| Consultas.Where | sprintcsharp/data/ProdutoInvestimentoRepository.cs:67 | the result is no longer than the input and every row in it satisfies the criterion |
| Consultas.WhereMultiset | sprintcsharp/data/ProdutoInvestimentoRepository.cs:67 | each row satisfying the criterion keeps its multiplicity; every other row is dropped |
| Consultas.WhereConcat | sprintcsharp/data/ProdutoInvestimentoRepository.cs:67 | filtering keeps order: filtering `a + b` is filtering `a`, then `b` |
| Consultas.WhereIdempotente | sprintcsharp/data/ProdutoInvestimentoRepository.cs:126 | filtering twice by one criterion is filtering once |
| Consultas.WhereTodos | sprintcsharp/data/ProdutoInvestimentoRepository.cs:126 | a filter that every row already passes returns the table unchanged |
| Consultas.WhereComuta | sprintcsharp/data/ProdutoInvestimentoRepository.cs:124-132 | two successive filters commute, so the order of the conditional filters does not matter |
| Consultas.WhereExtensional | sprintcsharp/data/ProdutoInvestimentoRepository.cs:67 | criteria that accept the same rows filter every table alike |
| Consultas.BuscarPorCategoriaCorreto | sprintcsharp/data/ProdutoInvestimentoRepository.cs:64-69 | exactly the rows whose lowered category contains the lowered search text, each with its multiplicity |
| Consultas.BuscarPorCategoriaIgnoraCaixa | sprintcsharp/data/ProdutoInvestimentoRepository.cs:67 | the case of the search text does not change the result |
| Consultas.BuscarPorCategoriaVazia | sprintcsharp/data/ProdutoInvestimentoRepository.cs:67 | an empty search text returns the whole table, in order |
| Consultas.BuscarPorRentabilidadeMinimaCorreto | sprintcsharp/data/ProdutoInvestimentoRepository.cs:74-80 | exactly the rows with yield at least the minimum, each with its multiplicity, in non-increasing yield order |
| Consultas.BuscarPorRiscoCorreto | sprintcsharp/data/ProdutoInvestimentoRepository.cs:85-91 | exactly the rows whose risk level equals the given one ignoring case, each with its multiplicity, ordered by name |
| Consultas.ChaveOrdenacao | sprintcsharp/data/ProdutoInvestimentoRepository.cs:135-141 | the dynamic ordering never sorts by `Id` |
| Consultas.ChaveOrdenacaoIgnoraCaixa | sprintcsharp/data/ProdutoInvestimentoRepository.cs:135 | the ordering selector is case-insensitive |
| Consultas.FiltrarMultiset | sprintcsharp/data/ProdutoInvestimentoRepository.cs:124-132 | the conditional filters keep exactly the rows passing every supplied filter, with their multiplicity |
| Consultas.FiltrarIdempotente | sprintcsharp/data/ProdutoInvestimentoRepository.cs:124-132 | applying the same conditional filters to their own result returns it unchanged |
| Consultas.BuscarComFiltrosCorreto | sprintcsharp/data/ProdutoInvestimentoRepository.cs:116-144 | exactly the rows passing every supplied filter, ANDed (a null or empty text and a null minimum constrain nothing), each with its multiplicity, sorted by the selected key |
| Consultas.BuscarComFiltrosSemFiltros | sprintcsharp/data/ProdutoInvestimentoRepository.cs:122-132 | with no filter the result is a permutation of the whole table |
| Consultas.BuscarComFiltrosOrdenacao | sprintcsharp/data/ProdutoInvestimentoRepository.cs:135-141 | `"rentabilidade"` sorts by yield, highest first; `"categoria"` and `"risco"` sort ascending by that column; null or anything else sorts ascending by name |
| Estatisticas.Maior | sprintcsharp/data/ProdutoInvestimentoRepository.cs:104 | the maximum bounds every yield and is the yield of some row |
| Estatisticas.Menor | sprintcsharp/data/ProdutoInvestimentoRepository.cs:105 | the minimum bounds every yield from below and is the yield of some row |
| Estatisticas.VezesProduto | sprintcsharp/data/ProdutoInvestimentoRepository.cs:103 | proof helper: repeated addition of a real is multiplication |
| Estatisticas.SomaLimitada | sprintcsharp/data/ProdutoInvestimentoRepository.cs:103 | proof helper: bounds on every yield bound the sum by the count times those bounds |
| Estatisticas.MediaVezesTotal | sprintcsharp/data/ProdutoInvestimentoRepository.cs:103 | proof helper: the average times the count is the sum of the yields |
| Estatisticas.MediaEntre | sprintcsharp/data/ProdutoInvestimentoRepository.cs:103 | proof helper: a sum between `n * inf` and `n * sup`, divided by `n`, lies between `inf` and `sup` |
| Estatisticas.MediaLimitada | sprintcsharp/data/ProdutoInvestimentoRepository.cs:103-105 | minimum <= average <= maximum |
| Estatisticas.IncrementarChaves | sprintcsharp/data/ProdutoInvestimentoRepository.cs:107 | counting one more row adds its category to the group keys |
| Estatisticas.IncrementarDistintas | sprintcsharp/data/ProdutoInvestimentoRepository.cs:107 | counting one more row keeps the group keys distinct |
| Estatisticas.IncrementarQuantidade | sprintcsharp/data/ProdutoInvestimentoRepository.cs:108 | counting a row adds one to its category's count and nothing to any other |
| Estatisticas.IncrementarSoma | sprintcsharp/data/ProdutoInvestimentoRepository.cs:108 | counting a row adds one to the total of the counts |
| Estatisticas.IncrementarPositivas | sprintcsharp/data/ProdutoInvestimentoRepository.cs:108 | counting a row keeps every count positive |
| Estatisticas.AgruparPorCategoriaCorreto | sprintcsharp/data/ProdutoInvestimentoRepository.cs:106-109 | distinct keys, exactly the categories present, each count >= 1 and equal to the number of rows with that category, counts adding up to the row count |
| Estatisticas.QuantidadeDaChave | sprintcsharp/data/ProdutoInvestimentoRepository.cs:108 | with distinct keys, the count recorded for a group's key is that group's count |
| Estatisticas.QuantidadeAusente | sprintcsharp/data/ProdutoInvestimentoRepository.cs:108 | a key held by no group has count 0 |
| Estatisticas.ObterEstatisticasValores | sprintcsharp/data/ProdutoInvestimentoRepository.cs:96-105 | `TotalProdutos` is the row count; on an empty table the three yield figures are 0; otherwise minimum <= average <= maximum, every yield lies between the extremes and both extremes are attained |
| Estatisticas.ObterEstatisticasGrupos | sprintcsharp/data/ProdutoInvestimentoRepository.cs:106-109 | one entry per distinct category (exact comparison), each count >= 1 and equal to that category's row count, counts adding up to `TotalProdutos` |
| Resumo.RiscoSimplificado | sprintcsharp/data/ProdutoInvestimentoRepository.cs:158 | one character, not a small letter, equal to the first character of the risk level ignoring case |
| Resumo.ObterResumo | sprintcsharp/data/ProdutoInvestimentoRepository.cs:149-161 | succeeds exactly when every risk level is non-empty, giving one entry per row in order with id, name, category and yield copied and the risk reduced to its upper-cased first letter; otherwise it fails naming the first row with an empty risk level |
| Paginacao.TotalPaginas | sprintcsharp/data/ProdutoInvestimentoRepository.cs:180 | for a positive page size, the least page count whose pages hold all rows (`total <= r * n < total + n`); for a negative one, the ceiling of the quotient (zero or less) |
| Paginacao.SkipTake | sprintcsharp/data/ProdutoInvestimentoRepository.cs:171-172 | the rows from position `max(inicio, 0)` on, at most `n` of them and none when `n <= 0`, clamped to the list |
| Paginacao.MultiplicarCorreto | sprintcsharp/data/ProdutoInvestimentoRepository.cs:171 | proof helper: repeated addition of an integer is the product |
| Paginacao.DeslocamentoCorreto | sprintcsharp/data/ProdutoInvestimentoRepository.cs:171 | the page's offset is `(pagina - 1) * itensPorPagina` |
| Paginacao.ObterProdutosPaginadosCorreto | sprintcsharp/data/ProdutoInvestimentoRepository.cs:166-183 | echoes page and size; `TotalItens` is the row count; `Produtos` is the slice of the `Id` order starting at `(pagina - 1) * n` (or 0), as long as the size allows and the list holds |
| Paginacao.PaginaOrdenada | sprintcsharp/data/ProdutoInvestimentoRepository.cs:168-173 | every page is in `Id` order |
| Paginacao.FatiaOrdenada | sprintcsharp/data/ProdutoInvestimentoRepository.cs:171-172 | a Skip/Take window of a list sorted by `Id` is sorted by `Id` |
| Paginacao.PaginaNaoPositiva | sprintcsharp/data/ProdutoInvestimentoRepository.cs:171 | a page number below 1 returns the rows of page 1 |
| Paginacao.ItensNegativos | sprintcsharp/data/ProdutoInvestimentoRepository.cs:172-180 | a negative page size returns no rows and a page count of zero or less |
| Paginacao.PaginaAlemDoFim | sprintcsharp/data/ProdutoInvestimentoRepository.cs:166-183 | a page beyond `TotalPaginas` is empty and still reports the row count |
| Paginacao.PaginaCheia | sprintcsharp/data/ProdutoInvestimentoRepository.cs:166-183 | every page before the last holds exactly `itensPorPagina` rows |
| Paginacao.JanelasConsecutivas | sprintcsharp/data/ProdutoInvestimentoRepository.cs:171-172 | a prefix followed by the next window is the longer prefix |
| Paginacao.PaginasPrefixo | sprintcsharp/data/ProdutoInvestimentoRepository.cs:168-173 | pages 1 to `k` together are the first `k * n` rows of the `Id` order |
| Paginacao.TodasAsPaginas | sprintcsharp/data/ProdutoInvestimentoRepository.cs:166-183 | pages 1 to `TotalPaginas` together are the whole `Id`-ordered table, every row exactly once |
| Paginacao.Exemplo23Itens | sprintcsharp/data/ProdutoInvestimentoRepository.cs:166-183 | 23 rows at 10 per page: 3 pages, page 3 holds 3 rows, page 4 none; at -10 per page the count is -2 and no row is returned |
| Repositorio.IndiceDe | sprintcsharp/data/ProdutoInvestimentoRepository.cs:30 | the position of the first row with the key, or the length when none has it |
| Repositorio.PrimeiroComId | sprintcsharp/data/ProdutoInvestimentoRepository.cs:30 | absent exactly when no row has the key; otherwise the first row that has it |
| Repositorio.IndiceDeIds | sprintcsharp/data/ProdutoInvestimentoRepository.cs:51-52 | the search finds a row exactly when the key is in the key set |
| Repositorio.IndiceUnico | sprintcsharp/data/ProdutoInvestimentoRepository.cs:30 | the first position holding a key is the one before which no row holds it |
| Repositorio.SemIdAusente | sprintcsharp/data/ProdutoInvestimentoRepository.cs:52 | dropping a key no row holds changes nothing |
| Repositorio.SemIdConcat | sprintcsharp/data/ProdutoInvestimentoRepository.cs:54 | dropping a key from `a + b` drops it from each part |
| Repositorio.SemIdMeio | sprintcsharp/data/ProdutoInvestimentoRepository.cs:54 | dropping the key of the one row holding it leaves the rows around it, in order |
| Repositorio.RemoverCorreto | sprintcsharp/data/ProdutoInvestimentoRepository.cs:48-57 | with unique keys, deleting by key leaves exactly the rows with other keys, in order |
| Repositorio.SemPosicao | sprintcsharp/data/ProdutoInvestimentoRepository.cs:54 | dropping a position shifts the later rows down by one |
| Repositorio.RemoverPreservaUnicidade | sprintcsharp/data/ProdutoInvestimentoRepository.cs:48-57 | deleting keeps the keys unique |
| Repositorio.IdsConcat | sprintcsharp/data/ProdutoInvestimentoRepository.cs:54 | the keys of `a + b` are the keys of `a` and of `b` |
| Repositorio.IdsMesmasChaves | sprintcsharp/data/ProdutoInvestimentoRepository.cs:43 | tables with the same key at every position have the same key set |
| Repositorio.SemIdChaves | sprintcsharp/data/ProdutoInvestimentoRepository.cs:54 | dropping a key removes exactly that key from the key set |
| Repositorio.SemIdTamanho | sprintcsharp/data/ProdutoInvestimentoRepository.cs:54 | with unique keys, dropping a present key removes one row |
| Repositorio.RemoverPreservaChaves | sprintcsharp/data/ProdutoInvestimentoRepository.cs:48-57 | deleting removes exactly the key from the key set, and one row when the key was present |
| Repositorio.SubstituirCorreto | sprintcsharp/data/ProdutoInvestimentoRepository.cs:41-45 | updating keeps the length, the key set and unique keys, replaces the row with the key and no other, and the key then finds the new row |
| Repositorio.ProdutoInvestimentoRepository.constructor | sprintcsharp/data/ProdutoInvestimentoRepository.cs:14-17 | a repository over an existing table with unique keys, all below the identity counter |
| Repositorio.ProdutoInvestimentoRepository.GetAll | sprintcsharp/data/ProdutoInvestimentoRepository.cs:20-24 | every row, in store order; the keys are unique and were issued by the identity column |
| Repositorio.ProdutoInvestimentoRepository.GetById | sprintcsharp/data/ProdutoInvestimentoRepository.cs:27-31 | null exactly when no row has the key; otherwise the first row that has it |
| Repositorio.ProdutoInvestimentoRepository.Add | sprintcsharp/data/ProdutoInvestimentoRepository.cs:34-38 | appends the product under the next identity value (`ValueGeneratedOnAdd`, MeuDbContext.cs lines 33-35), a key not present before; other rows are unchanged and the new key finds the new row |
| Repositorio.ProdutoInvestimentoRepository.Update | sprintcsharp/data/ProdutoInvestimentoRepository.cs:41-45 | succeeds exactly when the key is present; it then replaces that row, leaves every other row as it was, and the key finds the new row; otherwise nothing changes |
| Repositorio.ProdutoInvestimentoRepository.Delete | sprintcsharp/data/ProdutoInvestimentoRepository.cs:48-57 | removes exactly the row with the key and keeps the rest in order; a no-op when the key is absent; afterwards the key finds nothing |

## Left out

- Console menu, file export and import, the HTTP client and the database connection (`Program.cs`, `FileService.cs`, `ApiClientService.cs`, `databaseConnection.cs`) are I/O and are not part of this model. The import loop in `Program.cs` is a sequence of `Add` calls.
- Entity Framework's change tracking, `SaveChanges`, the SQL it generates and the column mapping of `MeuDbContext.cs` are not modelled; the table is a sequence and each operation takes effect at once. Two mapping facts are used: `Id` is the primary key (`HasKey`, `MeuDbContext.cs` line 31), which becomes the unique-key invariant, and the key is generated on insert (`MeuDbContext.cs` lines 33-35).
- `ToLower` and the `ToUpper` of the risk level's first letter are culture-sensitive in .NET; the model lowers and raises only the ASCII letters.
- `ObterEstatisticas` sends separate queries (`Count`, three `Any` checks, `Average`, `Max`, `Min` and the group-by) and `ObterProdutosPaginados` sends the count and the page query separately, each against the live table. The model evaluates all of them on one snapshot `t`. So the facts that the group counts add up to `TotalProdutos`, that `Any()` guards `Average`/`Max`/`Min`, and that `TotalPaginas` matches the rows returned hold only when no other writer changes the table between those queries.
- `GetAll`, `BuscarPorCategoria` and `ObterResumo` have no `OrderBy`, so the database may return their rows in any order. The model fixes one order, store order, in which `Add` appends at the end; the "in order" of `Consultas.BuscarPorCategoriaVazia`, `Resumo.ObterResumo` and `GetAll` relies on that choice; which rows they return, and how often, does not.
- Resumo.RiscoSimplificado: Dafny strings are sequences of Unicode scalar values, not of UTF-16 code units, so the model takes the whole first character. For a risk level that starts outside the Basic Multilingual Plane, `Substring(0, 1)` would take only the high half of a surrogate pair, and such a lone surrogate cannot be represented here. For well-formed text, `Contains` and `==` give the same answers in both encodings.
- String ordering uses plain lexicographic order on characters; database collation is not modelled.
- Ordenacao.OrderBy: states sorted and a permutation, not stability. LINQ-to-Objects is stable, but the query runs in the database, which does not promise any order among equal keys.
- Estatisticas.AgruparPorCategoria: groups come out in the order their category first occurs; the order under SQL `GROUP BY` is unspecified, so no lemma states the order.
- `decimal` yields are exact `real`s: the rounding of `decimal` division in `Average` and its 28-digit range are not modelled.
- `int` is unbounded: the 32-bit overflow of `(pagina - 1) * itensPorPagina` and of the identity counter are not modelled.
- Paginacao.ObterProdutosPaginados: requires `itensPorPagina != 0`. With a page size of zero the source converts an infinite or NaN `double` to `int`, and C# leaves that value unspecified. Negative arguments follow LINQ-to-Objects (a negative Skip skips nothing, a negative Take takes nothing); a database provider may reject them instead.
- Repositorio.ProdutoInvestimentoRepository.Update: on a missing key Entity Framework throws a concurrency exception; the model returns `false` and leaves the table unchanged instead.
- Repositorio.ProdutoInvestimentoRepository.Add: always stores the product under the next identity value. If the caller had set a non-zero `Id`, Entity Framework would try to insert that value explicitly, and the database could refuse it.
- Resumo.ObterResumo: the exception `Substring(0, 1)` throws on an empty risk level becomes a `Failure` naming the row; the partial list built before the failure is not observable in the source and is not returned.
- `Find` in `Delete` may answer from Entity Framework's cache of tracked entities; the model looks the key up in the table, which is the same row under the unique-key invariant.

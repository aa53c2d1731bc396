# Market basket analysis: cleaning, baskets, strong rules and the rule network

This project models, in Dafny, the logic that the market basket analysis
script `Python/MarketBasketAnalysis.py` writes itself around the mining
library it calls:

- **Invoice cleaning** (module `Invoices`, `invoices.dfy`).
  - A credit note is an invoice whose number starts with `'C'`.
  - The script drops every credit note, the invoice each credit note
    reverses (its number without the leading `'C'`), and every regular
    invoice with a row that has a negative quantity or a missing or zero unit
    price.
  - Invoices are dropped whole: the data are masked by "invoice number not in
    the invalid set".
- **Basket construction** (module `Baskets`, `baskets.dfy`).
  - The cleaned rows are grouped by invoice number into one list of item
    descriptions per invoice.
  - Row order and duplicates are kept within a list.
  - The groups come in ascending order of invoice number, as a sorting
    group-by on text keys produces them.
  - The list of lists without the keys is the transaction list.
- **Strong-rule filter** (module `Rules`, `rules.dfy`): rules whose lift
  exceeds 1.2 and whose confidence exceeds 0.5, both strictly, in table order.
- **Rule network** (module `RuleGraph`, `rule_graph.dfy`).
  - A directed graph gets an edge from every antecedent item to every
    consequent item of each selected rule.
  - The edges are added one at a time by three nested loops.
  - The graph is a class with node and edge sets; the loops are methods
    proved against the specification function `RuleEdges`.

Selecting rows by a boolean mask is one generic function, `Filtering.Filter`,
with its order and multiplicity lemmas (`filtering.dfy`). The
cleaning and the strong-rule filter are both instances of it.

Rows are records `(invoiceNo, quantity, unitPrice, description)`. The invoice
number is text: the column mixes `'C'`-prefixed numbers with plain ones.
`unitPrice` is `Option<real>`, with `None` for a missing price.

Frequent-itemset mining and rule generation are library calls (lines
109-123); the rule table is an input here. The script's baskets are lists
that keep duplicates; the library's encoder collapses them later.

## Model

| member | source | states |
|---|---|---|
| `Filtering.Filter` | Python/MarketBasketAnalysis.py:54 | mask selection keeps exactly the elements that pass the mask, never more than the input |
| `Invoices.OriginalInvoiceNo` | Python/MarketBasketAnalysis.py:31 | the reversed invoice's number is the credit note's number with the leading 'C' removed: 'C' + result == credit note |
| `Invoices.IsCreditNote` | Python/MarketBasketAnalysis.py:30 | an invoice number is a credit note iff it starts with 'C' |
| `Invoices.HasValidAmounts` | Python/MarketBasketAnalysis.py:43-45 | a row's amounts are valid iff quantity >= 0 and the unit price is present and non-zero |
| `Invoices.IsProblematicRegular` | Python/MarketBasketAnalysis.py:40-47 | a row is a problematic regular row iff its invoice is not a credit note and its amounts are not valid |
| `Invoices.CreditNoteNos` | Python/MarketBasketAnalysis.py:30-37 | x is a credit-note number iff x is an invoice number of the data starting with 'C' |
| `Invoices.OriginalInvoiceNos` | Python/MarketBasketAnalysis.py:30-34 | x is a reversed invoice number iff 'C' + x is an invoice number of the data |
| `Invoices.ProblematicRegularNos` | Python/MarketBasketAnalysis.py:40-48 | x is a problematic regular number iff x is not a credit note and some row of x has a negative quantity or a missing or zero price |
| `Invoices.InvalidInvoiceNos` | Python/MarketBasketAnalysis.py:51 | x is invalid iff it is a credit-note number of the data, or 'C' + x is, or a regular row of x has bad amounts |
| `Invoices.Clean` | Python/MarketBasketAnalysis.py:29-54 | a row survives iff it is in the data and its invoice number is not in the invalid set; no surviving row is a credit note, and every surviving row has quantity >= 0 and a present, non-zero unit price |
| `Invoices.ReversedInvoiceRemoved` | Python/MarketBasketAnalysis.py:31-54 | for every credit note 'C' + x in the data, no row of invoice x survives |
| `Invoices.WholeInvoiceRemoved` | Python/MarketBasketAnalysis.py:40-54 | one regular row with a negative quantity or a missing or zero price removes every row of its invoice, not only itself |
| `Invoices.InvoiceSurvivesIff` | Python/MarketBasketAnalysis.py:29-54 | an invoice of the data survives iff it is not a credit note, no credit note 'C' + x exists, and all its rows have valid amounts (both directions) |
| `Invoices.CleanIsOrderedSelection` | Python/MarketBasketAnalysis.py:54 | the cleaned data is a subsequence of the input and every row keeps its full multiplicity if its invoice is valid, else none: no row is altered or reordered |
| `Invoices.CleanIdempotent` | Python/MarketBasketAnalysis.py:29-54 | cleaning the cleaned data removes nothing more |
| `Baskets.SortedInvoiceNos` | Python/MarketBasketAnalysis.py:98 | the group keys are strictly ascending in string order and are exactly the distinct invoice numbers of the rows |
| `Baskets.ItemsOf` | Python/MarketBasketAnalysis.py:98 | an invoice's list holds exactly the descriptions of its rows and is empty iff the invoice does not occur |
| `Baskets.ItemsOfCounts` | Python/MarketBasketAnalysis.py:98 | duplicates are kept: each description occurs in an invoice's list exactly as many times as rows of that invoice carry it |
| `Baskets.ItemsOfInRowOrder` | Python/MarketBasketAnalysis.py:98 | an invoice's list is the description column of a subsequence of the rows holding exactly that invoice's rows, each with full multiplicity: its items keep the order of its own rows |
| `Baskets.ItemsOfInDescriptionColumn` | Python/MarketBasketAnalysis.py:98 | an invoice's list is a subsequence of the whole description column |
| `Baskets.GroupByInvoice` | Python/MarketBasketAnalysis.py:98 | exactly one basket per distinct invoice number (count equals the number of distinct invoices), keys ascending, each basket non-empty and holding its invoice's descriptions in row order |
| `Baskets.TransactionsList` | Python/MarketBasketAnalysis.py:101 | one non-empty item list per distinct invoice number; the i-th list is the item list of the i-th invoice number in ascending order |
| `Baskets.BasketSizesSum` | Python/MarketBasketAnalysis.py:98-101 | the list lengths sum to the number of rows: every row lands in exactly one basket, duplicates kept |
| `Baskets.CleanBasketsAreWhole` | Python/MarketBasketAnalysis.py:54-98 | a surviving invoice's basket after cleaning equals its item list in the raw data: cleaning never leaves a partial basket |
| `Rules.StrongRules` | Python/MarketBasketAnalysis.py:131 | a rule is kept iff lift > 1.2 and confidence > 0.5, strictly, so a rule at either floor is dropped |
| `Rules.StrongRulesKeepOrder` | Python/MarketBasketAnalysis.py:131 | the strong rules are a subsequence of the rule table, each kept with its full multiplicity |
| `RuleGraph.Product` | Python/MarketBasketAnalysis.py:183-185 | (a, c) is an edge of one rule iff a is an antecedent item and c a consequent item |
| `RuleGraph.RuleEdgesAreUnion` | Python/MarketBasketAnalysis.py:182-185 | the edge set is the union over the selected rules of antecedents × consequents (both directions) |
| `RuleGraph.EndpointsAreRuleItems` | Python/MarketBasketAnalysis.py:182-185 | every node of the graph is an item of some selected rule |
| `RuleGraph.RuleItemsAreEndpoints` | Python/MarketBasketAnalysis.py:182-185 | every item of a selected rule with two non-empty sides is a node |
| `RuleGraph.DiGraph.constructor` | Python/MarketBasketAnalysis.py:176 | a new graph has no nodes and no edges |
| `RuleGraph.DiGraph.AddEdge` | Python/MarketBasketAnalysis.py:185 | adding an edge adds exactly that edge and its two end nodes, nothing else |
| `RuleGraph.AddEdgesFrom` | Python/MarketBasketAnalysis.py:184-185 | the innermost loop adds the edges from one antecedent item to every consequent item |
| `RuleGraph.AddRuleEdges` | Python/MarketBasketAnalysis.py:183-185 | the two inner loops add antecedents × consequents of one rule to the edges |
| `RuleGraph.BuildRuleGraph` | Python/MarketBasketAnalysis.py:176-185 | the built graph's edges are RuleEdges of the selected rules and its nodes exactly the ends of those edges |

## Left out

- Frequent-itemset mining and rule generation (lines 109-123: the
  transaction encoder, apriori and the rule generator) are calls into the
  mlxtend library. Its code is not part of this model, so the rule table and
  the selected rules are inputs.
- Reading the CSV file (line 17) and all printed summaries (lines 20-25,
  59-71, 104-105) are I/O.
- All plotting (lines 74-92, 137-170, 187-200) is left out. It includes the
  randomised spring layout of the network.
- Sorting by support or lift and taking the first 10 or 50 rows (lines 119,
  125, 134, 153, 179) are floating-point sorts done by pandas. The network is
  built from whatever rule sequence it is given: in the script, the 50
  highest-lift rules of the full table, not the strong rules.
- Columns the model does not read are left out: customer, country, dates,
  and the rule table's other metrics.
- RuleGraph.DiGraph.AddEdge: the `weight` attribute (the rule's lift) is not
  modelled. A later rule's `add_edge` overwrites an earlier weight, which is
  graph-library behaviour; only the node and edge sets are modelled.
- Rules.StrongRules: lift and confidence are exact reals rather than
  double-precision floats, so rounding of the 1.2 and 0.5 floors and NaN
  comparisons are not modelled.
- Invoices.Clean: quantity is a whole number and a missing unit price is
  `None`. Missing invoice numbers, missing quantities and missing
  descriptions are not modelled. A negative unit price is allowed to survive,
  as in the source, which tests the price only for absence and zero.
- Baskets.GroupByInvoice: the key order is code-point order on the invoice
  number text. Python's string comparison orders text the same way.

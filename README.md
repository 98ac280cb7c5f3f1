# Recipe request handling and the manual recipe form, in Dafny

This project models two small pieces of a recipe app: its Express backend and its React Native client.

- **The recipe routes** (`server/routes/recipes.js`).
  - `POST /recipes/add` rejects a body with 400 "Missing required fields" unless `user_id`, `title`, `ingredients` and `steps` are all truthy in JavaScript's sense. Otherwise it inserts one row into the `recipes` table. The row is the object literal of the six destructured fields, with `time` and `tags` included.
  - `GET /recipes/list` selects `*` from `recipes`, newest `created_at` first. The page size is `Math.min(parseInt(limit) || 20, 100)`.
  - Both routes answer a database error with 500 and its message, and otherwise with the data.
  - The database is not executed. Each handler is a function from the request to its plan: an early response, an `Insert` of rows, or a `ListQuery`. A separate function turns the database's reply into the response.
- **JavaScript's `parseInt`** without a radix, as the ECMAScript language specification defines it (section 19.2.5). It runs on `String(limit)`, so `limit` may be missing (`"undefined"`), a string, a repeated parameter (an array, joined with `,`) or a bracketed one (an object, `"[object Object]"`).
  - It skips leading white space and line terminators and reads an optional sign.
  - A `0x`/`0X` prefix switches it to radix 16, so the limit is not decimal-only: `?limit=0x40` gives 64.
  - It then reads the longest run of digits, leading zeros included (`"050"` is 50), or gives NaN when there is none.
  - `String(limit)` itself can throw. The query parser lets `?limit[toString]=1` through as an object whose own `toString` is a string. `String()` then throws a TypeError, and so does joining an array that holds such an object. The route then rejects before it queries the table. The model gives this path a `Completion` value: normal or thrown.
- The model follows Express 4. There, body-parser 1.x hands `POST /add` an object or an array, or `{}` when there is no JSON body. The query parser is qs in its "extended" mode, with prototype keys allowed. Under Express 5, `req.body` stays undefined without a JSON body, so the destructuring on line 9 would throw. That case is not modelled.
- **The manual "Add a Recipe" screen** (`client/app/add-recipe-manual.tsx`). Both lists start as `['']`. `addIngredient`/`addStep` append an empty slot. `updateIngredient`/`updateStep` map the list and replace only the element at the edited index. An `Action` replay models the sequence of button presses (`onPress`) and typing (`onChangeText`) the screen feeds to these helpers.

Files: `js_values.dfy` (JSON-derived values, truthiness, property lookup), `js_parse_int.dfy` (`parseInt`), `recipe_routes.dfy` (the two routes), `manual_recipe_form.dfy` (the form lists).

## Model

| member | source | states |
|---|---|---|
| JsValues.Truthy | server/routes/recipes.js:10 | a value is falsy exactly when it is undefined, null, false, 0 or the empty string; arrays and objects, even empty ones, are truthy |
| JsValues.Field | server/routes/recipes.js:9 | destructuring reads an object's own field, and gives undefined for a missing key or a body that is not an object |
| JsValues.ErrorBody | server/routes/recipes.js:11 | the error answer is an object with the single key error holding the message |
| JsParseInt.TrimStart | server/routes/recipes.js:25 | the result is a suffix of the input; everything removed is white space or a line terminator; the result does not start with one |
| JsParseInt.ParseInt | server/routes/recipes.js:25 | a number comes out only when the trimmed text starts with a sign or a decimal digit; it is at most 0 after "-" and at least 0 otherwise |
| JsParseInt.Negate | server/routes/recipes.js:25 | a "-" sign negates a number and keeps NaN as NaN |
| JsParseInt.ParseMagnitude | server/routes/recipes.js:25 | after a "0x"/"0X" prefix the result is NaN exactly when no hexadecimal digit follows (a bare "0x" is NaN); otherwise NaN exactly when no decimal digit comes first; a number is never negative |
| JsParseInt.ParseDigits | server/routes/recipes.js:25 | NaN exactly when the text does not start with a digit of the radix; otherwise a non-negative number |
| JsParseInt.ParseDigitsOfRun | server/routes/recipes.js:25 | any non-empty run of radix digits followed by a non-digit reads as the number it denotes |
| JsParseInt.ZerosValue | server/routes/recipes.js:25 | a run of zeros denotes 0 |
| JsParseInt.ValueLeadingZeros | server/routes/recipes.js:25 | leading zeros do not change the number a digit run denotes |
| JsParseInt.NumeralValue | server/routes/recipes.js:25 | the canonical decimal or hexadecimal numeral of n is non-empty and made only of digits of its radix; it reads back as n; it starts with "0" only for n = 0 |
| JsParseInt.DecimalMagnitude | server/routes/recipes.js:25 | a decimal digit run followed by a non-digit is read in radix 10 as its number; only "0" followed by "x" would be taken as a prefix |
| JsParseInt.HexMagnitude | server/routes/recipes.js:25 | "0x" or "0X" followed by a hexadecimal digit run and a non-digit reads as the run's number in radix 16 |
| JsParseInt.MagnitudeOfDigits | server/routes/recipes.js:25 | the text after the sign, an optional prefix and a digit run of the radix it selects, reads as the run's number |
| JsParseInt.ParseIntSkipsLeadingSpace | server/routes/recipes.js:25 | prefixing any run of white space or line terminators leaves the parseInt result unchanged |
| JsParseInt.ParseIntSigned | server/routes/recipes.js:25 | after white space, a leading "-" negates the magnitude read after it, a "+" is skipped, and anything else is read as the magnitude |
| JsParseInt.ParseIntOfMagnitude | server/routes/recipes.js:25 | white space and a sign followed by text (starting with neither) whose magnitude is n parse to n, or to -n after "-" |
| JsParseInt.ParseIntOfDigits | server/routes/recipes.js:25 | white space + sign + optional "0x"/"0X" + any digit run, canonical or not, + a non-digit parses to the run's number, negated after "-" |
| JsParseInt.ParseIntOfNumeral | server/routes/recipes.js:25 | round trip: white space + sign + optional "0x" + numeral of n + any text not starting with a further digit parses to n, or -n after "-" |
| JsParseInt.TrimStartAppend | server/routes/recipes.js:25 | appending text that starts with a non-space character adds that text to the trimmed string unchanged |
| JsParseInt.DigitsAppend | server/routes/recipes.js:25 | appending text that starts with a non-digit does not change the digits read |
| JsParseInt.MagnitudeAppend | server/routes/recipes.js:25 | appending text that starts with a character that can continue neither a prefix nor a number does not change the magnitude |
| JsParseInt.ParseIntStopsAt | server/routes/recipes.js:25 | for every string a, appending text that starts with such a character (a comma, say) leaves parseInt(a) unchanged |
| JsParseInt.ParseIntWithoutDigits | server/routes/recipes.js:25 | white space and an optional sign followed by no digit parse to NaN |
| RecipeRoutes.HasRequiredFields | server/routes/recipes.js:10 | the guard holds exactly when all four of user_id, title, ingredients and steps are truthy |
| RecipeRoutes.RecipeRow | server/routes/recipes.js:15 | the inserted row has exactly the keys user_id, title, time, tags, ingredients, steps, each holding the body's value unchanged (undefined when absent) |
| RecipeRoutes.PostAdd | server/routes/recipes.js:8-15 | rejected if and only if some required field is falsy; the rejection is 400 with error "Missing required fields" and no insert; otherwise exactly one row, into recipes, with exactly the six fields copied from the body |
| RecipeRoutes.Respond | server/routes/recipes.js:18-19 | a database error gives status 500 with body {error: message}; data gives status 200 with that data as the body |
| RecipeRoutes.HandleAdd | server/routes/recipes.js:8-19 | a body missing a required field gets the 400 answer whatever the database would say; an accepted body gets the database's answer |
| RecipeRoutes.OptionalFieldsNotRequired | server/routes/recipes.js:9-10 | removing time and tags from a body never changes whether it is accepted |
| RecipeRoutes.EmptyListsAccepted | server/routes/recipes.js:10 | empty arrays for ingredients and steps pass the check, since arrays are truthy |
| RecipeRoutes.ExtraFieldsIgnored | server/routes/recipes.js:9-15 | fields other than the six change neither the verdict nor the row |
| RecipeRoutes.RowResubmits | server/routes/recipes.js:10-15 | posting the inserted row as a body again produces the same plan: the row keeps every field the check needs |
| RecipeRoutes.QueryText | server/routes/recipes.js:24-25 | String(limit) throws, with a TypeError, exactly when an own toString key sits in the value or in an array inside it; a string is kept as it is; a one-element array gives its element's string |
| RecipeRoutes.JoinTexts | server/routes/recipes.js:25 | the join completes exactly when every element converts, and otherwise ends with one element's error; the first element's string starts the result, followed by "," when there are more |
| RecipeRoutes.PageSize | server/routes/recipes.js:25 | the page size is at most 100 and never 0; a NaN or zero parse gives 20; a non-zero parse n gives n when n <= 100 and 100 otherwise, so negatives pass through |
| RecipeRoutes.ListLimit | server/routes/recipes.js:24-25 | the limit expression throws a TypeError exactly when String(limit) does; otherwise it is the page size of parseInt(String(limit)), at most 100 and never 0 |
| RecipeRoutes.GetList | server/routes/recipes.js:23-30 | the handler throws exactly when String(limit) does; otherwise it selects * from recipes ordered by created_at descending, with the limit expression's value as its row cap; a missing limit gives 20 |
| RecipeRoutes.ListRoute | server/routes/recipes.js:23-32 | the handler throws, before any database answer is used, exactly when String(limit) does; otherwise a database error gives 500 with its message and data gives 200 with the rows |
| RecipeRoutes.ListLimitOfNumeral | server/routes/recipes.js:25 | a limit written as a padded, signed, optionally hexadecimal numeral n followed by other text gives 20 for n = 0, n for n <= 100, and 100 above |
| RecipeRoutes.ListLimitOfDigits | server/routes/recipes.js:25 | the same for any digit run ("050", "0x0040", "0X1F"): the page size comes from the number the run denotes |
| RecipeRoutes.LeadingZerosIgnored | server/routes/recipes.js:25 | zeros written before a decimal limit do not change the page size |
| RecipeRoutes.RepeatedLimitUsesFirst | server/routes/recipes.js:24-25 | for every array parameter that does not throw, the page size is set by its first element alone (a missing first element counts as "") |
| RecipeRoutes.ObjectLimit | server/routes/recipes.js:24-25 | an object limit throws a TypeError when it has an own toString key, and gives the default 20 otherwise |
| RecipeRoutes.ListLimitWithoutDigits | server/routes/recipes.js:25 | a limit with no digits after its white space and sign gives 20 |
| ManualRecipeForm.AddEntry | client/app/add-recipe-manual.tsx:13 | the list grows by exactly one; the old list is a prefix; the new last slot is empty |
| ManualRecipeForm.UpdateEntry | client/app/add-recipe-manual.tsx:16 | length preserved; for an index in range the slot holds the new value and every other slot is unchanged; for an index out of range the list is unchanged |
| ManualRecipeForm.UpdateEntryIsSeqUpdate | client/app/add-recipe-manual.tsx:16 | for an index in range the edit equals the sequence update entries[idx := value] |
| ManualRecipeForm.UpdateEntryLastWins | client/app/add-recipe-manual.tsx:16 | editing one slot twice keeps only the second value |
| ManualRecipeForm.UpdateEntriesCommute | client/app/add-recipe-manual.tsx:16 | edits at two different indices give the same list in either order |
| ManualRecipeForm.Initial | client/app/add-recipe-manual.tsx:9-10 | both lists start as a single empty entry |
| ManualRecipeForm.AddIngredient | client/app/add-recipe-manual.tsx:12-14 | appends an empty slot to ingredients; steps unchanged |
| ManualRecipeForm.UpdateIngredient | client/app/add-recipe-manual.tsx:15-17 | edits ingredients at the index; steps unchanged |
| ManualRecipeForm.AddStep | client/app/add-recipe-manual.tsx:18-20 | appends an empty slot to steps; ingredients unchanged |
| ManualRecipeForm.UpdateStep | client/app/add-recipe-manual.tsx:21-23 | edits steps at the index; ingredients unchanged |
| ManualRecipeForm.Apply | client/app/add-recipe-manual.tsx:53-70 | the typing and button handlers each touch only their own list; only an "Add" press changes a length, by one |
| ManualRecipeForm.Replay | client/app/add-recipe-manual.tsx:12-23 | over any sequence of actions, neither list ever gets shorter |
| ManualRecipeForm.ReplayLengths | client/app/add-recipe-manual.tsx:12-23 | after any sequence of actions, each list's length is its starting length plus the number of presses of its "Add" button |
| ManualRecipeForm.NeverEmpty | client/app/add-recipe-manual.tsx:9-23 | from the initial form, no sequence of actions empties either list |
| ManualRecipeForm.ListsIndependent | client/app/add-recipe-manual.tsx:12-23 | a sequence of ingredient actions leaves steps unchanged; a sequence of step actions leaves ingredients unchanged |

## Left out

- The hosted database itself is not modelled. The semantics of Supabase's insert/select/order/limit, `.single()`, and the id and `created_at` the table assigns are all outside the model. The routes are modelled up to the request they make, and the database's answer is a parameter (`DbReply`).
- Express, CORS, body parsing and port binding sit outside these functions. The model takes the parsed body and query as given, in the Express 4 form described above.
- A thrown TypeError in `GET /list` rejects the async handler's promise. Express 4 does not catch that, so no response is sent. The model stops at the `Thrown` completion.
- An array parameter from qs never holds a missing element. The model still gives one the empty string in a join, as `Array.prototype.join` does.
- The `DbError` message is kept as a string. A database error object whose `message` is undefined would serialise as `{}`; that corner is not modelled.
- JsParseInt.ParseInt: results are unbounded integers. JavaScript rounds a parsed value beyond 2^53 to the nearest double. Because the limit clamps at 100, this affects only the exact value of a hugely negative limit. Negative zero is folded into 0, which is falsy like -0.
- JsParseInt.ParseInt: strings are sequences of Unicode scalar values, not UTF-16 code units. The white-space and digit code points all lie in the Basic Multilingual Plane, so parsing reads the same.
- ManualRecipeForm: each helper reads the list as of the last render. Two presses handled before React re-renders would therefore both extend the same old list. That render scheduling is not modelled; each action sees the result of the previous one.
- The JSX of the form is not modelled: the recipe name, tags, categories, time and servings inputs, and the "Save Recipe" button, which has no handler. The same goes for the styles and the rest of the client screens.
- The screens under client/components/experimental/ and client/app/ other than the manual form, client/lib/profileService.js (network client), server/routes/ai.js (pass-through to a chat-completion API) and server/index.js are not part of this model.
